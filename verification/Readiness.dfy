/** What the readiness report says, answer by answer. */
module Readiness {
  import opened Common
  import opened Text
  import opened Release

  // ---- uncommitted changes --------------------------------------------------------------

  /** An entry of `git status --porcelain` for an untracked path in the directory of the tool. */
  ghost predicate UntrackedByTool(entry: string) {
    exists path :: entry == "?? " + path && ".batty/" <= path
  }

  lemma IgnoredIff(entry: string)
    ensures IGNORED_ENTRY <= entry <==> UntrackedByTool(entry)
  {
    if IGNORED_ENTRY <= entry {
      assert entry == "?? " + entry[3..];
    }
  }

  /** The dirty entries are the other entries, each as often as it is listed. */
  lemma {:induction false} DirtyEntriesCount(lines: seq<string>, line: string)
    ensures multiset(DirtyEntries(lines))[line] == if UntrackedByTool(line) then 0 else multiset(lines)[line]
  {
    if lines != [] {
      DirtyEntriesCount(lines[1..], line);
      IgnoredIff(line);
      assert lines == [lines[0]] + lines[1..];
    }
  }

  // ---- blockers ----------------------------------------------------------------------------

  /** The blockers of the release pipeline that the report lists under the same reason. */
  predicate Shared(r: Reason) {
    r.IsGate() && r != DirtyMain && r != GitRefLookupFailed && r != VerificationStartFailed
  }

  /** The report has a blocker with this reason. */
  ghost predicate Blocks(s: Snapshot, tags: map<string, string>, r: Reason) {
    exists detail :: Gate(r, detail) in Blockers(s, tags)
  }

  lemma InIdentity(s: Snapshot, tags: map<string, string>, r: Reason, detail: string)
    ensures Gate(r, detail) in IdentityBlockers(s) <==>
              || (r == MissingReleaseMetadata && s.metadata == Err(detail))
              || (r == GitBranchLookupFailed && s.branch == Err(detail))
              || (r == NotOnMain && Fails(NotOnMain, s, tags) && s.branch == Ok(detail))
  {
  }

  lemma InState(s: Snapshot, r: Reason, detail: string)
    ensures Gate(r, detail) in StateBlockers(s) <==>
              || (r == GitStatusFailed && s.status == Err(detail))
              || (r == GitRefLookupFailed && s.head == Err(detail))
  {
  }

  lemma InTags(s: Snapshot, tags: map<string, string>, r: Reason, detail: string)
    ensures Gate(r, detail) in TagBlockers(s, tags) <==>
              || (r == TagLookupFailed && Fails(TagLookupFailed, s, tags) && s.tagLookupError == Some(detail))
              || (r == TagExists && Fails(TagExists, s, tags) && s.metadata.value.tag == detail)
              || (r == PreviousTagLookupFailed && s.latestTag == Err(detail))
              || (r == CommitCountFailed && s.latestTag.Ok? && s.commitCount(s.latestTag.value) == Err(detail))
  {
  }

  /** The trimmed details of a verification, or its trimmed summary where there are none. */
  predicate Tells(detail: string, v: Verification) {
    detail == Trim(if v.details.Some? then v.details.value else v.summary)
  }

  lemma InVerification(s: Snapshot, tags: map<string, string>, r: Reason, detail: string)
    ensures Gate(r, detail) in VerificationBlockers(s) ==>
              r == VerificationFailed && Fails(r, s, tags) && Tells(detail, s.verification.value)
    ensures r == VerificationFailed && Fails(r, s, tags) ==>
              exists d :: Gate(r, d) in VerificationBlockers(s)
  {
    if s.verification.Ok? {
      TrimFacts(s.verification.value.summary);
      TrimFacts(Trim(s.verification.value.summary));
    }
    if r == VerificationFailed && Fails(r, s, tags) {
      assert VerificationBlockers(s)[0] in VerificationBlockers(s);
    }
  }

  lemma InBlockers(s: Snapshot, tags: map<string, string>, b: Blocker)
    ensures b in Blockers(s, tags) <==>
              || b in IdentityBlockers(s) || b in StateBlockers(s) || b in CheckBlockers(s) || b in TagBlockers(s, tags)
              || b in VerificationBlockers(s) || b in DaemonBlockers(s)
  {
  }

  lemma GateWithDetail(s: Snapshot, tags: map<string, string>, r: Reason, detail: string)
    ensures Gate(r, detail) in Blockers(s, tags) <==>
              || Gate(r, detail) in IdentityBlockers(s) || Gate(r, detail) in StateBlockers(s)
              || Gate(r, detail) in TagBlockers(s, tags) || Gate(r, detail) in VerificationBlockers(s)
  {
    InBlockers(s, tags, Gate(r, detail));
  }

  /** What a blocker with this reason says about the answer that failed. */
  lemma GateDetail(s: Snapshot, tags: map<string, string>, r: Reason, detail: string)
    requires Gate(r, detail) in Blockers(s, tags)
    ensures Shared(r) || r == GitRefLookupFailed
    ensures r != GitRefLookupFailed ==> Fails(r, s, tags)
    ensures match r
            case MissingReleaseMetadata => s.metadata == Err(detail)
            case GitBranchLookupFailed => s.branch == Err(detail)
            case NotOnMain => s.branch == Ok(detail) && detail != "main"
            case GitStatusFailed => s.status == Err(detail)
            case GitRefLookupFailed => s.head == Err(detail)
            case TagLookupFailed => s.tagLookupError == Some(detail)
            case TagExists => detail in tags && s.metadata.Ok? && s.metadata.value.tag == detail
            case PreviousTagLookupFailed => s.latestTag == Err(detail)
            case CommitCountFailed => s.latestTag.Ok? && s.commitCount(s.latestTag.value) == Err(detail)
            case VerificationFailed => s.verification.Ok? && Tells(detail, s.verification.value)
            case _ => true
  {
    GateWithDetail(s, tags, r, detail);
    InIdentity(s, tags, r, detail);
    InState(s, r, detail);
    InTags(s, tags, r, detail);
    InVerification(s, tags, r, detail);
  }

  /** The report blocks for a shared reason exactly when that gate of the release fails, whatever else fails. */
  lemma BlocksIff(s: Snapshot, tags: map<string, string>, r: Reason)
    ensures Shared(r) ==> (Blocks(s, tags, r) <==> Fails(r, s, tags))
    ensures Blocks(s, tags, GitRefLookupFailed) <==> s.head.Err?
    ensures Blocks(s, tags, r) ==> Shared(r) || r == GitRefLookupFailed
  {
    forall detail
      ensures Gate(r, detail) in Blockers(s, tags) ==>
                (Shared(r) || r == GitRefLookupFailed) && (r != GitRefLookupFailed ==> Fails(r, s, tags))
    {
      if Gate(r, detail) in Blockers(s, tags) {
        GateDetail(s, tags, r, detail);
      }
    }
    forall detail
      ensures Gate(GitRefLookupFailed, detail) in Blockers(s, tags) <==> s.head == Err(detail)
    {
      GateWithDetail(s, tags, GitRefLookupFailed, detail);
      InIdentity(s, tags, GitRefLookupFailed, detail);
      InState(s, GitRefLookupFailed, detail);
      InTags(s, tags, GitRefLookupFailed, detail);
      InVerification(s, tags, GitRefLookupFailed, detail);
    }
    if s.head.Err? {
      assert Gate(GitRefLookupFailed, s.head.error) in Blockers(s, tags);
    }
    if Shared(r) && Fails(r, s, tags) {
      FailingGateIsListed(s, tags, r);
    }
  }

  /** The error text of an answer that a gate of the release reports. */
  function DetailOf(s: Snapshot, tags: map<string, string>, r: Reason): string
    requires Fails(r, s, tags)
  {
    match r
    case NotOnMain => s.branch.value
    case TagExists => s.metadata.value.tag
    case _ => if Details(r, s, tags).Some? then Details(r, s, tags).value else ""
  }

  lemma FailingGateIsListed(s: Snapshot, tags: map<string, string>, r: Reason)
    requires Shared(r) && Fails(r, s, tags)
    ensures Blocks(s, tags, r)
  {
    if r == VerificationFailed {
      InVerification(s, tags, r, "");
      var d :| Gate(r, d) in VerificationBlockers(s);
      GateWithDetail(s, tags, r, d);
    } else {
      var detail := DetailOf(s, tags, r);
      GateWithDetail(s, tags, r, detail);
      InIdentity(s, tags, r, detail);
      InState(s, r, detail);
      InTags(s, tags, r, detail);
    }
  }

  /** The number of uncommitted changes is reported exactly when there are some, and it is right. */
  lemma DirtyWorktreeIff(s: Snapshot, tags: map<string, string>, n: nat)
    ensures DirtyWorktree(n) in Blockers(s, tags) <==>
              Fails(DirtyMain, s, tags) && n == |DirtyEntries(Lines(s.status.value))|
  {
    InBlockers(s, tags, DirtyWorktree(n));
    if s.status.Ok? {
      DirtyEntriesIff(Lines(s.status.value));
    }
  }

  /** The verification could not start, or it passed without evidence. */
  lemma EvidenceBlockersIff(s: Snapshot, tags: map<string, string>, error: string)
    ensures VerificationUnavailable(error) in Blockers(s, tags) <==> s.verification == Err(error)
    ensures MissingVerificationEvidence in Blockers(s, tags) <==>
              s.verification.Ok? && s.verification.value.passed && Trim(s.verification.value.summary) == ""
  {
    InBlockers(s, tags, VerificationUnavailable(error));
    InBlockers(s, tags, MissingVerificationEvidence);
  }

  /** The checks of the commit at `HEAD` fail, or nothing is known of them. */
  lemma FeedbackBlockersIff(s: Snapshot, tags: map<string, string>, error: string, n: nat, commit: Option<string>)
    ensures FeedbackUnavailable(error) in Blockers(s, tags) <==> s.feedback(Known(s.head, true)) == Err(error)
    ensures FailingChecks(n, commit) in Blockers(s, tags) <==>
              n > 0 && exists f :: s.feedback(Known(s.head, true)) == Ok(f) && |f.failing| == n
                                   && f.currentCommit == commit
  {
    InBlockers(s, tags, FeedbackUnavailable(error));
    InBlockers(s, tags, FailingChecks(n, commit));
  }

  lemma StaleDaemonIff(s: Snapshot, tags: map<string, string>, detail: string)
    ensures StaleDaemon(detail) in Blockers(s, tags) <==> s.daemonBlocker == Ok(Some(detail))
  {
    InBlockers(s, tags, StaleDaemon(detail));
  }

  // ---- fields ---------------------------------------------------------------------------------

  /** The field is filled exactly when the question was answered, and with that answer. */
  predicate Filled<T(==)>(field: Option<T>, answer: Answer<T>) {
    match answer
    case Ok(value) => field == Some(value)
    case Err(_) => field.None?
  }

  /** The report states every answer, also those after a failed one. */
  lemma ReportStatesAnswers(s: Snapshot, tags: map<string, string>)
    ensures var p := ReportOf(s, tags);
            && Filled(p.branch, s.branch) && Filled(p.currentCommit, s.head)
            && (s.metadata.Err? ==> p.packageName.None? && p.version.None? && p.proposedTag.None?)
            && (s.metadata.Ok? ==> p.packageName.Some? && p.version.Some? && p.proposedTag.Some?
                                   && s.metadata.value ==
                                      Metadata(p.packageName.value, p.version.value, p.proposedTag.value))
            && (s.latestTag.Ok? ==> s.latestTag == Ok(p.previousTag)
                                    && Filled(p.commitsSincePrevious, s.commitCount(p.previousTag)))
            && (s.latestTag.Err? ==> p.previousTag.None? && p.commitsSincePrevious.None?)
            && (s.verification.Ok? ==> p.verificationCommand == Some(s.verification.value.command)
                                       && p.verificationSummary == Some(Trim(s.verification.value.summary)))
            && (s.verification.Err? ==> p.verificationCommand.None? && p.verificationSummary.None?)
            && (s.feedback(p.currentCommit).Ok? ==> s.feedback(p.currentCommit) == Ok(p.feedback))
            && (s.feedback(p.currentCommit).Err? ==> p.feedback.failing == [])
  {
  }

  /** Where both succeed, the record of the release repeats the report, up to the whitespace around the summary. */
  lemma RecordAgreesWithReport(s: Snapshot, tags: map<string, string>)
    requires FirstFailure(s, tags).None?
    ensures s.metadata.Ok?
    ensures var p, f := ReportOf(s, tags), SuccessRecord(s).fields;
            && f.packageName == p.packageName && f.version == p.version && f.tag == p.proposedTag
            && f.branch == p.branch && f.previousTag == p.previousTag
            && f.commitsSincePrevious == p.commitsSincePrevious && f.verificationCommand == p.verificationCommand
            && f.verificationSummary.Some? && p.verificationSummary == Some(Trim(f.verificationSummary.value))
            && (f.gitRef == p.currentCommit <==> s.main == s.head)
  {
    SuccessRecordIsComplete(s, tags);
    ReportStatesAnswers(s, tags);
    RecordNamesTaggedCommitIff(s, tags);
  }
}
