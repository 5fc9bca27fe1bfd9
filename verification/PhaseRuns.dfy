/** Names of phase runs: `<slug>-run-<NNN>`, fresh for every new run. */
module PhaseRuns {
  import opened Common
  import opened Commits
  import opened Decimal
  import Repository
  import Text
  import WorktreeReset

  type PhaseWorktree = WorktreeReset.PhaseWorktree

  const U32_LIMIT := Repository.U32_LIMIT

  // ---- slugs -------------------------------------------------------------------

  predicate IsAsciiAlphanumeric(c: char) {
    '0' <= c <= '9' || 'a' <= c <= 'z' || 'A' <= c <= 'Z'
  }

  /** Lower-case alphanumerics, every other stretch of characters turned into one dash. */
  function Dashed(s: string, lastDash: bool): string {
    if s == "" then ""
    else if IsAsciiAlphanumeric(s[0]) then [Text.ToAsciiLower(s[0])] + Dashed(s[1..], false)
    else if lastDash then Dashed(s[1..], true)
    else "-" + Dashed(s[1..], true)
  }

  function TrimDashes(s: string): string {
    if s == "" then ""
    else if s[0] == '-' then TrimDashes(s[1..])
    else if s[|s| - 1] == '-' then TrimDashes(s[..|s| - 1])
    else s
  }

  function Sanitized(phase: string): string {
    var slug := TrimDashes(Dashed(phase, false));
    if slug == "" then "phase" else slug
  }

  predicate IsSlugChar(c: char) {
    '0' <= c <= '9' || 'a' <= c <= 'z' || c == '-'
  }

  predicate SingleDashes(s: string) {
    && (forall i :: 0 <= i < |s| ==> IsSlugChar(s[i]))
    && (forall i :: 0 < i < |s| ==> s[i] != '-' || s[i - 1] != '-')
  }

  /** A single path component that Git accepts in a branch name. */
  predicate IsSlug(s: string) {
    |s| > 0 && SingleDashes(s) && s[0] != '-' && s[|s| - 1] != '-'
  }

  lemma {:induction false} DashedHasSingleDashes(s: string, lastDash: bool)
    ensures SingleDashes(Dashed(s, lastDash))
    ensures lastDash && Dashed(s, lastDash) != "" ==> Dashed(s, lastDash)[0] != '-'
  {
    if s != "" {
      if IsAsciiAlphanumeric(s[0]) {
        DashedHasSingleDashes(s[1..], false);
      } else {
        DashedHasSingleDashes(s[1..], true);
      }
    }
  }

  lemma {:induction false} TrimmedIsSlug(s: string)
    requires SingleDashes(s)
    ensures TrimDashes(s) != "" ==> IsSlug(TrimDashes(s))
  {
    if s != "" {
      if s[0] == '-' {
        TrimmedIsSlug(s[1..]);
      } else if s[|s| - 1] == '-' {
        TrimmedIsSlug(s[..|s| - 1]);
      }
    }
  }

  lemma {:induction false} DashedKeepsSlugs(s: string, lastDash: bool)
    requires SingleDashes(s)
    requires lastDash && s != "" ==> s[0] != '-'
    ensures Dashed(s, lastDash) == s
  {
    if s != "" {
      DashedKeepsSlugs(s[1..], s[0] == '-');
    }
  }

  /** Every phase name becomes a slug, and exactly the slugs are left as they are. */
  lemma SanitizedIsSlug(phase: string)
    ensures IsSlug(Sanitized(phase))
    ensures Sanitized(phase) == phase <==> IsSlug(phase)
  {
    DashedHasSingleDashes(phase, false);
    TrimmedIsSlug(Dashed(phase, false));
    if IsSlug(phase) {
      DashedKeepsSlugs(phase, false);
    }
  }

  method SanitizePhaseForBranch(phase: string) returns (slug: string)
    ensures slug == Sanitized(phase)
    ensures IsSlug(slug)
  {
    var out, lastDash := "", false;
    for i := 0 to |phase|
      invariant out + Dashed(phase[i..], lastDash) == Dashed(phase, false)
    {
      var c := phase[i];
      ghost var before := out;
      assert phase[i..][1..] == phase[i + 1..];
      if IsAsciiAlphanumeric(c) {
        out := out + [Text.ToAsciiLower(c)];
        lastDash := false;
      } else if !lastDash {
        out := out + "-";
        lastDash := true;
      }
    }
    assert out == Dashed(phase, false);
    SanitizedIsSlug(phase);
    slug := TrimDashes(out);
    if slug == "" {
      slug := "phase";
    }
  }

  // ---- run names ---------------------------------------------------------------

  function RunName(prefix: string, run: nat): string {
    prefix + Print03(run)
  }

  /** Three or more digits after the prefix that fit into a `u32`. */
  function ParseRunNumber(name: string, prefix: string): Option<nat> {
    if !(prefix <= name) then None
    else
      var suffix := name[|prefix|..];
      if |suffix| < 3 || !AllDigits(suffix) || Value(suffix) >= U32_LIMIT then None
      else Some(Value(suffix))
  }

  /** Formatting a run number and parsing the name gives the number back, for every `u32`. */
  lemma RunNameRoundTrip(prefix: string, run: nat)
    ensures ParseRunNumber(RunName(prefix, run), prefix) == if run < U32_LIMIT then Some(run) else None
  {
    assert RunName(prefix, run)[|prefix|..] == Print03(run);
    ValueOfPrint03(run);
  }

  lemma RunNameInjective(prefix: string, m: nat, n: nat)
    requires RunName(prefix, m) == RunName(prefix, n)
    ensures m == n
  {
    assert RunName(prefix, m)[|prefix|..] == Print03(m);
    assert RunName(prefix, n)[|prefix|..] == Print03(n);
    ValueOfPrint03(m);
    ValueOfPrint03(n);
  }

  // ---- the worktrees directory and the branches ----------------------------------

  /** One entry of `.batty/worktrees`, in the order the directory lists them. */
  datatype Entry = Entry(name: string, isDir: bool)

  const WORKTREES_ROOT := ".batty/worktrees/"

  datatype RunError = DetachedRoot | UnbornRoot | RunNumberOverflow | WorktreeAddFailed

  /** How `for-each-ref` lists a branch: with its directory when a tag has the same name. */
  function ListedName(tags: map<string, Commit>, branch: string): string {
    if branch in tags then "heads/" + branch else branch
  }

  /** How `rev-parse` and `worktree add` read the name of a branch: a tag of that name wins. */
  function CommitOfName(branches: map<string, Commit>, tags: map<string, Commit>, name: string): Commit
    requires name in branches
  {
    if name in tags then tags[name] else branches[name]
  }

  function ListedRun(tags: map<string, Commit>, branch: string, prefix: string): Option<nat> {
    ParseRunNumber(ListedName(tags, branch), prefix)
  }

  /** `best` is the highest run number among the listed branch names and the directory entries. */
  predicate IsMaxRun(branches: map<string, Commit>, tags: map<string, Commit>, entries: seq<Entry>, prefix: string,
                     best: nat)
  {
    && (forall b :: b in branches && ListedRun(tags, b, prefix).Some? ==> ListedRun(tags, b, prefix).value <= best)
    && (forall e :: e in entries && ParseRunNumber(e.name, prefix).Some? ==>
          ParseRunNumber(e.name, prefix).value <= best)
    && (best == 0
        || (exists b :: b in branches && ListedRun(tags, b, prefix) == Some(best))
        || (exists e :: e in entries && ParseRunNumber(e.name, prefix) == Some(best)))
  }

  predicate Taken(branches: map<string, Commit>, entries: seq<Entry>, name: string) {
    name in branches || exists e :: e in entries && e.name == name
  }

  /** A directory whose name is a run of the phase and whose branch still exists. */
  predicate IsCandidate(branches: map<string, Commit>, e: Entry, prefix: string) {
    e.isDir && ParseRunNumber(e.name, prefix).Some? && e.name in branches
  }

  /** The first of the candidates with the largest run number. */
  predicate IsLatest(branches: map<string, Commit>, entries: seq<Entry>, prefix: string, at: nat) {
    && at < |entries|
    && IsCandidate(branches, entries[at], prefix)
    && forall j :: 0 <= j < |entries| && IsCandidate(branches, entries[j], prefix) ==>
         if j < at then ParseRunNumber(entries[j].name, prefix).value < ParseRunNumber(entries[at].name, prefix).value
         else ParseRunNumber(entries[j].name, prefix).value <= ParseRunNumber(entries[at].name, prefix).value
  }

  /** The number after the maximum is free exactly when no branch has it behind a tag of the same name. */
  lemma NumberAfterMaxIsFresh(branches: map<string, Commit>, tags: map<string, Commit>, entries: seq<Entry>,
                              prefix: string, best: nat)
    requires IsMaxRun(branches, tags, entries, prefix, best) && best + 1 < U32_LIMIT
    ensures var name := RunName(prefix, best + 1);
            !Taken(branches, entries, name) <==> !(name in branches && name in tags)
  {
    var name := RunName(prefix, best + 1);
    RunNameRoundTrip(prefix, best + 1);
    assert name !in tags ==> ListedRun(tags, name, prefix) == Some(best + 1);
  }

  /** There is only one maximum. */
  lemma MaxRunUnique(branches: map<string, Commit>, tags: map<string, Commit>, entries: seq<Entry>, prefix: string,
                     a: nat, b: nat)
    requires IsMaxRun(branches, tags, entries, prefix, a) && IsMaxRun(branches, tags, entries, prefix, b)
    ensures a == b
  {
  }

  function PhasePrefix(phase: string): string {
    Sanitized(phase) + "-run-"
  }

  predicate NumberTaken(branches: map<string, Commit>, entries: seq<Entry>, prefix: string, k: nat) {
    Taken(branches, entries, RunName(prefix, k))
  }

  function TakenNumbers(branches: map<string, Commit>, entries: seq<Entry>, prefix: string): nat -> bool {
    (k: nat) => NumberTaken(branches, entries, prefix, k)
  }

  /** Every number from `from` up to `to`, which is left out. */
  ghost predicate AllOf(f: nat -> bool, from: nat, to: nat) {
    forall k :: from <= k < to ==> f(k)
  }

  lemma OneMore(f: nat -> bool, from: nat, to: nat)
    requires AllOf(f, from, to) && f(to)
    ensures AllOf(f, from, to + 1)
  {
  }

  /** `n` is the first number above the maximum whose name is free. */
  ghost predicate IsNextNumber(branches: map<string, Commit>, tags: map<string, Commit>, entries: seq<Entry>,
                               prefix: string, n: nat)
  {
    && n < U32_LIMIT && !NumberTaken(branches, entries, prefix, n)
    && exists best: nat ::
         && best < n && IsMaxRun(branches, tags, entries, prefix, best)
         && AllOf(TakenNumbers(branches, entries, prefix), best + 1, n)
  }

  /** All numbers above the maximum are taken; usually because the maximum is the largest `u32`. */
  ghost predicate NoNumberLeft(branches: map<string, Commit>, tags: map<string, Commit>, entries: seq<Entry>,
                               prefix: string)
  {
    exists best: nat ::
      && IsMaxRun(branches, tags, entries, prefix, best)
      && AllOf(TakenNumbers(branches, entries, prefix), best + 1, U32_LIMIT)
  }

  lemma NextNumberIsLeft(branches: map<string, Commit>, tags: map<string, Commit>, entries: seq<Entry>, prefix: string,
                         n: nat)
    requires IsNextNumber(branches, tags, entries, prefix, n)
    ensures !NoNumberLeft(branches, tags, entries, prefix)
  {
    var taken := TakenNumbers(branches, entries, prefix);
    var best: nat :| best < n && IsMaxRun(branches, tags, entries, prefix, best) && AllOf(taken, best + 1, n);
    forall other: nat | IsMaxRun(branches, tags, entries, prefix, other)
      ensures !AllOf(taken, other + 1, U32_LIMIT)
    {
      MaxRunUnique(branches, tags, entries, prefix, best, other);
      assert !taken(n);
    }
  }

  /** `run` is run number `n`, made on the branch `base`. */
  ghost predicate IsNextRun(branches: map<string, Commit>, tags: map<string, Commit>, entries: seq<Entry>, base: string,
                            phase: string, n: nat, run: PhaseWorktree)
  {
    && IsNextNumber(branches, tags, entries, PhasePrefix(phase), n)
    && base in branches
    && var name := RunName(PhasePrefix(phase), n);
       run == WorktreeReset.PhaseWorktree(base, branches[base], name, WORKTREES_ROOT + name)
  }

  /** What a new run leaves behind: its branch, at what Git takes the name of the base for, and its directory. */
  ghost predicate IsCreated(branches: map<string, Commit>, tags: map<string, Commit>, entries: seq<Entry>,
                            run: PhaseWorktree, branches': map<string, Commit>, entries': seq<Entry>)
    requires run.base in branches
  {
    && !Taken(branches, entries, run.branch)
    && branches' == branches[run.branch := CommitOfName(branches, tags, run.base)]
    && entries' == entries + [Entry(run.branch, true)]
  }

  /** Why no run can be created, in the order in which the code finds out. */
  ghost function PrepareError(branches: map<string, Commit>, tags: map<string, Commit>, entries: seq<Entry>,
                              current: Option<string>, phase: string, addFails: bool): Option<RunError>
  {
    if current.None? then Some(DetachedRoot)
    else if current.value !in branches then Some(UnbornRoot)
    else if NoNumberLeft(branches, tags, entries, PhasePrefix(phase)) then Some(RunNumberOverflow)
    else if addFails then Some(WorktreeAddFailed)
    else None
  }

  predicate HasRun(branches: map<string, Commit>, entries: seq<Entry>, phase: string) {
    exists e :: e in entries && IsCandidate(branches, e, PhasePrefix(phase))
  }

  /** The latest run of the phase has this name. */
  ghost predicate LatestIs(branches: map<string, Commit>, entries: seq<Entry>, phase: string, name: string) {
    exists at: nat :: IsLatest(branches, entries, PhasePrefix(phase), at) && entries[at].name == name
  }

  lemma LatestUnique(branches: map<string, Commit>, entries: seq<Entry>, prefix: string, a: nat, b: nat)
    requires IsLatest(branches, entries, prefix, a) && IsLatest(branches, entries, prefix, b)
    ensures a == b
  {
  }

  /** `run` is what a resume on branch `base` makes of the latest run of the phase. */
  ghost predicate IsResumed(branches: map<string, Commit>, tags: map<string, Commit>, entries: seq<Entry>, base: string,
                            phase: string, run: PhaseWorktree)
  {
    && LatestIs(branches, entries, phase, run.branch)
    && run.branch in branches
    && run == WorktreeReset.PhaseWorktree(base, CommitOfName(branches, tags, run.branch), run.branch,
                                          WORKTREES_ROOT + run.branch)
  }

  /** Once a run above the maximum has its branch and its directory, every listing has that run as the latest. */
  lemma NewRunIsLatest(branches: map<string, Commit>, tags: map<string, Commit>, entries: seq<Entry>, prefix: string,
                       n: nat, tip: Commit, listing: seq<Entry>, at: nat)
    requires IsNextNumber(branches, tags, entries, prefix, n)
    requires Entry(RunName(prefix, n), true) in listing
    requires forall e :: e in listing ==> e in entries || e == Entry(RunName(prefix, n), true)
    requires IsLatest(branches[RunName(prefix, n) := tip], listing, prefix, at)
    ensures listing[at] == Entry(RunName(prefix, n), true)
  {
    var name := RunName(prefix, n);
    RunNameRoundTrip(prefix, n);
    var k :| 0 <= k < |listing| && listing[k] == Entry(name, true);
    assert IsCandidate(branches[name := tip], listing[k], prefix);
    assert listing[at] in listing;
  }

  /**
   After a new run, in whatever order the directory is listed, there is a run to
   resume and it is the new one: same base, branch and path, and the same start
   commit exactly when no tag stands in for the base or for the new branch.
   */
  lemma NewRunIsResumed(branches: map<string, Commit>, tags: map<string, Commit>, entries: seq<Entry>, base: string,
                        phase: string, n: nat, run: PhaseWorktree, branches': map<string, Commit>,
                        entries': seq<Entry>, listing: seq<Entry>, again: PhaseWorktree)
    requires IsNextRun(branches, tags, entries, base, phase, n, run)
    requires IsCreated(branches, tags, entries, run, branches', entries')
    requires forall e :: e in listing <==> e in entries'
    ensures HasRun(branches', listing, phase)
    ensures IsResumed(branches', tags, listing, base, phase, again) ==>
              && again == run.(startCommit := again.startCommit)
              && (again == run <==> SameStart(branches, tags, run))
  {
    var prefix := PhasePrefix(phase);
    RunNameRoundTrip(prefix, n);
    assert Entry(run.branch, true) in entries';
    assert IsCandidate(branches', Entry(run.branch, true), prefix);
    if IsResumed(branches', tags, listing, base, phase, again) {
      var at: nat :| IsLatest(branches', listing, prefix, at) && listing[at].name == again.branch;
      NewRunIsLatest(branches, tags, entries, prefix, n, CommitOfName(branches, tags, base), listing, at);
    }
  }

  /** No tag gives the new branch, or else the base that it was made from, another commit. */
  predicate SameStart(branches: map<string, Commit>, tags: map<string, Commit>, run: PhaseWorktree)
    requires run.base in branches
  {
    run.startCommit
    == if run.branch in tags then tags[run.branch] else CommitOfName(branches, tags, run.base)
  }

  /** A new run never has its own branch as base. */
  lemma NewRunHasAnotherBase(branches: map<string, Commit>, tags: map<string, Commit>, entries: seq<Entry>,
                             base: string, phase: string, n: nat, run: PhaseWorktree)
    requires IsNextRun(branches, tags, entries, base, phase, n, run)
    ensures run.base != run.branch
  {
  }

  /** A resumed run has its own branch as base exactly when the project root is on that branch. */
  lemma ResumedOnItsOwnBranch(branches: map<string, Commit>, tags: map<string, Commit>, entries: seq<Entry>,
                              base: string, phase: string, run: PhaseWorktree)
    requires IsResumed(branches, tags, entries, base, phase, run)
    ensures run.base == run.branch <==> LatestIs(branches, entries, phase, base)
  {
    if LatestIs(branches, entries, phase, base) {
      var prefix := PhasePrefix(phase);
      var a: nat :| IsLatest(branches, entries, prefix, a) && entries[a].name == base;
      var b: nat :| IsLatest(branches, entries, prefix, b) && entries[b].name == run.branch;
      LatestUnique(branches, entries, prefix, a, b);
    }
  }

  class PhaseStore {
    /** Branch to tip. */
    var branches: map<string, Commit>
    /** Tag to commit. */
    const tags: map<string, Commit>
    var entries: seq<Entry>
    /** The branch that the project root is on, if HEAD is attached. */
    var current: Option<string>

    constructor (branches: map<string, Commit>, tags: map<string, Commit>, entries: seq<Entry>, current: Option<string>)
      ensures this.branches == branches && this.tags == tags && this.entries == entries && this.current == current
    {
      this.branches, this.tags, this.entries, this.current := branches, tags, entries, current;
    }

    /** One more than the largest number of the listed branches and the directory entries. */
    method NextRunNumber(prefix: string) returns (r: Result<nat, RunError>)
      ensures match r
              case Ok(n) => 0 < n < U32_LIMIT && IsMaxRun(branches, tags, entries, prefix, n - 1)
              case Err(e) => e == RunNumberOverflow && IsMaxRun(branches, tags, entries, prefix, U32_LIMIT - 1)
    {
      var best := MaxListedRun(prefix);
      best := MaxEntryRun(prefix, best);
      if best + 1 == U32_LIMIT {
        return Err(RunNumberOverflow);
      }
      return Ok(best + 1);
    }

    method MaxListedRun(prefix: string) returns (best: nat)
      ensures best < U32_LIMIT
      ensures forall b :: b in branches && ListedRun(tags, b, prefix).Some? ==> ListedRun(tags, b, prefix).value <= best
      ensures best == 0 || exists b :: b in branches && ListedRun(tags, b, prefix) == Some(best)
    {
      best := 0;
      var todo := branches.Keys;
      while todo != {}
        invariant todo <= branches.Keys
        invariant best < U32_LIMIT
        invariant forall b :: b in branches.Keys - todo && ListedRun(tags, b, prefix).Some? ==>
                    ListedRun(tags, b, prefix).value <= best
        invariant best == 0 || exists b :: b in branches && ListedRun(tags, b, prefix) == Some(best)
        decreases todo
      {
        var b :| b in todo;
        todo := todo - {b};
        var run := ListedRun(tags, b, prefix);
        if run.Some? && run.value > best {
          best := run.value;
        }
      }
    }

    method MaxEntryRun(prefix: string, from: nat) returns (best: nat)
      requires from < U32_LIMIT
      ensures from <= best < U32_LIMIT
      ensures forall e :: e in entries && ParseRunNumber(e.name, prefix).Some? ==>
                ParseRunNumber(e.name, prefix).value <= best
      ensures best == from || exists e :: e in entries && ParseRunNumber(e.name, prefix) == Some(best)
    {
      best := from;
      for i := 0 to |entries|
        invariant from <= best < U32_LIMIT
        invariant forall j :: 0 <= j < i && ParseRunNumber(entries[j].name, prefix).Some? ==>
                    ParseRunNumber(entries[j].name, prefix).value <= best
        invariant best == from || exists e :: e in entries && ParseRunNumber(e.name, prefix) == Some(best)
      {
        var run := ParseRunNumber(entries[i].name, prefix);
        if run.Some? && run.value > best {
          best := run.value;
          assert entries[i] in entries;
        }
      }
    }

    /** Creates the branch and the worktree of a new run; `addFails` is `git worktree add` failing. */
    method PreparePhaseWorktree(phase: string, addFails: bool) returns (r: Result<PhaseWorktree, RunError>)
      modifies this`branches, this`entries
      ensures match PrepareError(old(branches), tags, old(entries), current, phase, addFails)
              case Some(e) => r == Err(e) && branches == old(branches) && entries == old(entries)
              case None =>
                && r.Ok?
                && (exists n: nat :: IsNextRun(old(branches), tags, old(entries), current.value, phase, n, r.value))
                && IsCreated(old(branches), tags, old(entries), r.value, branches, entries)
    {
      if current.None? {
        return Err(DetachedRoot);
      }
      if current.value !in branches {
        return Err(UnbornRoot);
      }
      var start := branches[current.value];
      var slug := SanitizePhaseForBranch(phase);
      var prefix := slug + "-run-";
      var run := FreshRunNumber(prefix);
      if run.Err? {
        return Err(run.error);
      }
      if addFails {
        return Err(WorktreeAddFailed);
      }
      var name := RunName(prefix, run.value);
      r := Ok(WorktreeReset.PhaseWorktree(current.value, start, name, WORKTREES_ROOT + name));
      assert IsNextRun(branches, tags, entries, current.value, phase, run.value, r.value);
      branches := branches[name := CommitOfName(branches, tags, current.value)];
      entries := entries + [Entry(name, true)];
    }

    /** The number of the next run: above the maximum, and free. */
    method FreshRunNumber(prefix: string) returns (r: Result<nat, RunError>)
      ensures match r
              case Ok(n) =>
                IsNextNumber(branches, tags, entries, prefix, n) && !NoNumberLeft(branches, tags, entries, prefix)
              case Err(e) => e == RunNumberOverflow && NoNumberLeft(branches, tags, entries, prefix)
    {
      var next := NextRunNumber(prefix);
      if next.Err? {
        assert AllOf(TakenNumbers(branches, entries, prefix), U32_LIMIT, U32_LIMIT);
        return Err(next.error);
      }
      var run := FirstFreeRun(prefix, next.value, U32_LIMIT);
      if run.None? {
        return Err(RunNumberOverflow);
      }
      NextNumberIsLeft(branches, tags, entries, prefix, run.value);
      return Ok(run.value);
    }

    /** The loop that skips names already in use, until the counter runs out of its type. */
    method FirstFreeRun(prefix: string, from: nat, limit: nat) returns (run: Option<nat>)
      requires from < limit
      ensures match run
              case Some(n) =>
                && from <= n < limit && !NumberTaken(branches, entries, prefix, n)
                && AllOf(TakenNumbers(branches, entries, prefix), from, n)
              case None => AllOf(TakenNumbers(branches, entries, prefix), from, limit)
    {
      var n := from;
      var taken := IsTaken(prefix, n);
      while taken
        invariant from <= n < limit && taken == TakenNumbers(branches, entries, prefix)(n)
        invariant AllOf(TakenNumbers(branches, entries, prefix), from, n)
        decreases limit - n, taken
      {
        OneMore(TakenNumbers(branches, entries, prefix), from, n);
        if n + 1 == limit {
          return None;
        }
        n := n + 1;
        taken := IsTaken(prefix, n);
      }
      return Some(n);
    }

    /** The path exists, or the branch does. */
    method IsTaken(prefix: string, k: nat) returns (taken: bool)
      ensures taken == NumberTaken(branches, entries, prefix, k)
    {
      return Taken(branches, entries, RunName(prefix, k));
    }

    method LatestPhaseWorktree(phase: string) returns (r: Result<Option<PhaseWorktree>, RunError>)
      ensures current.None? ==> r == Err(DetachedRoot)
      ensures current.Some? ==>
                match r
                case Ok(Some(run)) =>
                  HasRun(branches, entries, phase) && IsResumed(branches, tags, entries, current.value, phase, run)
                case Ok(None) => !HasRun(branches, entries, phase)
                case Err(_) => false
    {
      if current.None? {
        return Err(DetachedRoot);
      }
      var slug := SanitizePhaseForBranch(phase);
      var prefix := slug + "-run-";
      var best: Option<nat> := None;
      for i := 0 to |entries|
        invariant best.None? ==> forall j :: 0 <= j < i ==> !IsCandidate(branches, entries[j], prefix)
        invariant best.Some? ==> best.value < i && IsLatest(branches, entries[..i], prefix, best.value)
      {
        if IsCandidate(branches, entries[i], prefix) {
          if best.None?
             || ParseRunNumber(entries[i].name, prefix).value > ParseRunNumber(entries[best.value].name, prefix).value {
            best := Some(i);
          }
        }
      }
      if best.None? {
        return Ok(None);
      }
      assert entries[..|entries|] == entries;
      var name := entries[best.value].name;
      assert entries[best.value] in entries;
      var start := CommitOfName(branches, tags, name);
      return Ok(Some(WorktreeReset.PhaseWorktree(current.value, start, name, WORKTREES_ROOT + name)));
    }

    /** Resume the latest run unless a new one is forced; `resumed` says which it was. */
    method ResolvePhaseWorktree(phase: string, forceNew: bool, addFails: bool)
      returns (r: Result<(PhaseWorktree, bool), RunError>)
      modifies this`branches, this`entries
      ensures r.Err? ==> branches == old(branches) && entries == old(entries)
      ensures if current.Some? && !forceNew && HasRun(old(branches), old(entries), phase) then
                && r.Ok? && r.value.1 && branches == old(branches) && entries == old(entries)
                && IsResumed(branches, tags, entries, current.value, phase, r.value.0)
              else match PrepareError(old(branches), tags, old(entries), current, phase, addFails)
                case Some(e) => r == Err(e)
                case None =>
                  && r.Ok? && !r.value.1
                  && (exists n: nat :: IsNextRun(old(branches), tags, old(entries), current.value, phase, n, r.value.0))
                  && IsCreated(old(branches), tags, old(entries), r.value.0, branches, entries)
    {
      if !forceNew {
        var existing := LatestPhaseWorktree(phase);
        if existing.Err? {
          return Err(existing.error);
        }
        if existing.value.Some? {
          return Ok((existing.value.value, true));
        }
      }
      var created := PreparePhaseWorktree(phase, addFails);
      if created.Err? {
        return Err(created.error);
      }
      return Ok((created.value, false));
    }

    /**
     A new run, followed at once by a resolve that forces nothing, is that same run again;
     with the same start commit exactly when no tag stands in for the base or the branch.
     */
    method PrepareThenResolve(phase: string, addFails: bool, addFailsAgain: bool)
      returns (r: Result<PhaseWorktree, RunError>, again: Result<(PhaseWorktree, bool), RunError>)
      modifies this`branches, this`entries
      ensures r.Ok? <==> PrepareError(old(branches), tags, old(entries), current, phase, addFails).None?
      ensures r.Ok? ==>
                && r.value.base in old(branches)
                && IsCreated(old(branches), tags, old(entries), r.value, branches, entries)
                && again.Ok? && again.value.1
                && again.value.0 == r.value.(startCommit := again.value.0.startCommit)
                && (again.value.0 == r.value <==> SameStart(old(branches), tags, r.value))
    {
      ghost var before, listed := branches, entries;
      r := PreparePhaseWorktree(phase, addFails);
      ghost var after, listing := branches, entries;
      again := ResolvePhaseWorktree(phase, false, addFailsAgain);
      if r.Ok? {
        ghost var n: nat :| IsNextRun(before, tags, listed, current.value, phase, n, r.value);
        ghost var resumed := if again.Ok? then again.value.0 else r.value;
        NewRunIsResumed(before, tags, listed, current.value, phase, n, r.value, after, listing, listing, resumed);
      }
    }
  }
}
