/** What the choice of the trunk ref promises about the commits it keeps. */
module TrunkSelection {
  import opened Common
  import opened Commits
  import opened Repository
  import opened WorktreeReset

  function LocalTip(refs: Refs, trunk: string): Option<Commit> {
    if LocalRef(trunk) in refs then Some(refs[LocalRef(trunk)]) else None
  }

  function RemoteTip(refs: Refs, trunk: string): Option<Commit> {
    if RemoteRef("origin/" + trunk) in refs then Some(refs[RemoteRef("origin/" + trunk)]) else None
  }

  /**
   What Git takes `origin/<trunk>` for: a local branch of that name wins over the
   remote trunk.  The ancestry tests of the selection use the remote trunk, the
   counts and the checkout use this name.
   */
  function NamedTip(refs: Refs, trunk: string): Option<Commit> {
    Resolve(refs, "origin/" + trunk)
  }

  /** No local branch is called `origin/<trunk>`, so that short name means the remote trunk. */
  predicate OriginNameFree(refs: Refs, trunk: string) {
    LocalRef("origin/" + trunk) !in refs
  }

  /** Neither side contains the other. */
  predicate Diverged(a: Commit, b: Commit) {
    !IsAncestor(a, b) && !IsAncestor(b, a)
  }

  predicate HasFallback(refs: Refs, trunk: string) {
    PreferredTrunkStart(refs, trunk).Ok? && PreferredTrunkStart(refs, trunk).value.fallback.Some?
  }

  // ---- which commit is checked out -------------------------------------------------

  /**
   With both trunks present, local trunk is checked out exactly when it has commits
   that the remote trunk lacks, and reported as ahead or divergent accordingly.
   */
  lemma ChosenTip(refs: Refs, trunk: string)
    requires LocalTip(refs, trunk).Some? && RemoteTip(refs, trunk).Some? && PreferredTrunkStart(refs, trunk).Ok?
    ensures var local, remote := LocalTip(refs, trunk).value, RemoteTip(refs, trunk).value;
            var start := PreferredTrunkStart(refs, trunk).value;
            && Resolve(refs, start.refName)
               == (if IsAncestor(local, remote) then NamedTip(refs, trunk) else Some(local))
            && (start.fallback == None <==> IsAncestor(local, remote))
            && (start.fallback.Some? ==> !start.fallback.value.OriginUnreachable?)
            && (start.fallback.Some? && start.fallback.value.LocalAhead?
                <==> IsAncestor(remote, local) && local != remote)
            && (start.fallback.Some? && start.fallback.value.Divergent? <==> Diverged(local, remote))
  {
    var local, remote := LocalTip(refs, trunk).value, RemoteTip(refs, trunk).value;
    if IsAncestor(local, remote) && IsAncestor(remote, local) {
      AncestryIsAntisymmetric(local, remote);
    }
  }

  /**
   The commit checked out contains all of local trunk exactly when the remote trunk
   does not win, or the name `origin/<trunk>` means a commit that contains it too.
   */
  lemma TrunkStartKeepsLocal(refs: Refs, trunk: string)
    requires LocalTip(refs, trunk).Some? && PreferredTrunkStart(refs, trunk).Ok?
    ensures var local := LocalTip(refs, trunk).value;
            var chosen := Resolve(refs, PreferredTrunkStart(refs, trunk).value.refName);
            && chosen.Some?
            && (History(local) <= History(chosen.value)
                <==> || OriginNameFree(refs, trunk) || RemoteTip(refs, trunk).None?
                     || !IsAncestor(local, RemoteTip(refs, trunk).value)
                     || IsAncestor(local, refs[LocalRef("origin/" + trunk)]))
  {
    var local := LocalTip(refs, trunk).value;
    if RemoteTip(refs, trunk).Some? {
      ChosenTip(refs, trunk);
      HistoryIncludedIffAncestor(local, NamedTip(refs, trunk).value);
    }
  }

  lemma HistoryIncludedIffAncestor(older: Commit, newer: Commit)
    ensures History(older) <= History(newer) <==> IsAncestor(older, newer)
  {
    if IsAncestor(older, newer) {
      AncestorHistoryIncluded(older, newer);
    }
    assert older in History(older);
  }

  lemma SameHistoryIffSame(a: Commit, b: Commit)
    ensures History(a) == History(b) <==> a == b
  {
    HistoryIncludedIffAncestor(a, b);
    HistoryIncludedIffAncestor(b, a);
    if History(a) == History(b) {
      AncestryIsAntisymmetric(a, b);
    }
  }

  /**
   When one trunk contains the other, the commit checked out has exactly the commits
   of both, exactly when local trunk wins or the name `origin/<trunk>` means the remote trunk's commit.
   */
  lemma TrunkStartKeepsBothSides(refs: Refs, trunk: string)
    requires LocalTip(refs, trunk).Some? && RemoteTip(refs, trunk).Some? && PreferredTrunkStart(refs, trunk).Ok?
    requires !Diverged(LocalTip(refs, trunk).value, RemoteTip(refs, trunk).value)
    ensures var local, remote := LocalTip(refs, trunk).value, RemoteTip(refs, trunk).value;
            var chosen := Resolve(refs, PreferredTrunkStart(refs, trunk).value.refName);
            && chosen.Some?
            && (History(chosen.value) == History(local) + History(remote)
                <==> !IsAncestor(local, remote) || NamedTip(refs, trunk) == Some(remote))
  {
    var local, remote := LocalTip(refs, trunk).value, RemoteTip(refs, trunk).value;
    ChosenTip(refs, trunk);
    HistoryIncludedIffAncestor(local, remote);
    HistoryIncludedIffAncestor(remote, local);
    if IsAncestor(local, remote) {
      assert History(local) + History(remote) == History(remote);
      SameHistoryIffSame(NamedTip(refs, trunk).value, remote);
    } else {
      assert History(local) + History(remote) == History(local);
    }
  }

  /** With one trunk only, that one is checked out, under the name that the selection reports. */
  lemma SingleTrunkStart(refs: Refs, trunk: string)
    requires LocalTip(refs, trunk).None? || RemoteTip(refs, trunk).None?
    ensures PreferredTrunkStart(refs, trunk).Ok?
    ensures var start := PreferredTrunkStart(refs, trunk).value;
            && (start.fallback == Some(OriginUnreachable) <==> RemoteTip(refs, trunk).None?)
            && (RemoteTip(refs, trunk).None? && LocalTip(refs, trunk).Some? ==>
                  Resolve(refs, start.refName) == LocalTip(refs, trunk))
            && (RemoteTip(refs, trunk).Some? ==>
                  && Resolve(refs, start.refName) == NamedTip(refs, trunk)
                  && start.fallback == None)
  {
  }

  // ---- the counts --------------------------------------------------------------------

  lemma CardinalityOfDifference(a: set<Commit>, b: set<Commit>)
    ensures |a - b| == |a| - |a * b|
  {
    assert a == (a - b) + a * b;
  }

  /** How many commits of the two histories are shared. */
  function Shared(a: Commit, b: Commit): nat {
    |History(a) * History(b)|
  }

  /**
   The count "ahead" is taken against what `origin/<trunk>` means.  It is positive
   exactly when that does not contain local trunk, and it is the number of commits
   that the remote trunk lacks exactly when both share equally much with local trunk.
   */
  lemma AheadCount(refs: Refs, trunk: string)
    requires LocalTip(refs, trunk).Some? && RemoteTip(refs, trunk).Some? && HasFallback(refs, trunk)
    ensures var local, remote := LocalTip(refs, trunk).value, RemoteTip(refs, trunk).value;
            var fallback := PreferredTrunkStart(refs, trunk).value.fallback.value;
            && NamedTip(refs, trunk).Some? && !fallback.OriginUnreachable?
            && var named := NamedTip(refs, trunk).value;
               && fallback.ahead == |RevList(named, local)|
               && (fallback.ahead > 0 <==> !IsAncestor(local, named))
               && (fallback.ahead == |RevList(remote, local)| <==> Shared(local, named) == Shared(local, remote))
  {
    var local, remote := LocalTip(refs, trunk).value, RemoteTip(refs, trunk).value;
    var named := NamedTip(refs, trunk).value;
    RevListEmptyIffAncestor(named, local);
    CardinalityOfDifference(History(local), History(named));
    CardinalityOfDifference(History(local), History(remote));
  }

  /** The same for the count "origin ahead" of diverged trunks, which measures what `origin/<trunk>` means. */
  lemma OriginAheadCount(refs: Refs, trunk: string)
    requires LocalTip(refs, trunk).Some? && RemoteTip(refs, trunk).Some? && HasFallback(refs, trunk)
    requires PreferredTrunkStart(refs, trunk).value.fallback.value.Divergent?
    ensures var local, remote := LocalTip(refs, trunk).value, RemoteTip(refs, trunk).value;
            var originAhead := PreferredTrunkStart(refs, trunk).value.fallback.value.originAhead;
            && NamedTip(refs, trunk).Some?
            && var named := NamedTip(refs, trunk).value;
               && originAhead == |RevList(local, named)|
               && (originAhead > 0 <==> !IsAncestor(named, local))
               && (originAhead == |RevList(local, remote)|
                   <==> |History(named)| - Shared(named, local) == |History(remote)| - Shared(remote, local))
  {
    var local, remote := LocalTip(refs, trunk).value, RemoteTip(refs, trunk).value;
    var named := NamedTip(refs, trunk).value;
    RevListEmptyIffAncestor(local, named);
    CardinalityOfDifference(History(named), History(local));
    CardinalityOfDifference(History(remote), History(local));
  }

  /** Where the name `origin/<trunk>` is free, every count is the size of the set difference, and positive. */
  lemma CountsOfFreeName(refs: Refs, trunk: string)
    requires LocalTip(refs, trunk).Some? && RemoteTip(refs, trunk).Some? && HasFallback(refs, trunk)
    requires OriginNameFree(refs, trunk)
    ensures var local, remote := LocalTip(refs, trunk).value, RemoteTip(refs, trunk).value;
            var fallback := PreferredTrunkStart(refs, trunk).value.fallback.value;
            && !fallback.OriginUnreachable?
            && fallback.ahead == |RevList(remote, local)| > 0
            && (fallback.Divergent? ==> fallback.originAhead == |RevList(local, remote)| > 0)
  {
    ChosenTip(refs, trunk);
    AheadCount(refs, trunk);
    if PreferredTrunkStart(refs, trunk).value.fallback.value.Divergent? {
      OriginAheadCount(refs, trunk);
    }
  }

  /** The choice fails exactly when a count it has to report, against what `origin/<trunk>` means, exceeds 32 bits. */
  lemma TrunkStartFailsExactly(refs: Refs, trunk: string)
    ensures PreferredTrunkStart(refs, trunk).Err? <==>
            match (LocalTip(refs, trunk), RemoteTip(refs, trunk))
            case (Some(local), Some(remote)) =>
              && !IsAncestor(local, remote)
              && (|RevList(NamedTip(refs, trunk).value, local)| >= U32_LIMIT
                  || (!IsAncestor(remote, local) && |RevList(local, NamedTip(refs, trunk).value)| >= U32_LIMIT))
            case _ => false
  {
    var local, remote := LocalTip(refs, trunk), RemoteTip(refs, trunk);
    if local.Some? && remote.Some? && IsAncestor(local.value, remote.value) && IsAncestor(remote.value, local.value) {
      AncestryIsAntisymmetric(local.value, remote.value);
    }
  }

  // ---- where the promises fail ---------------------------------------------------------

  /** Local trunk is strictly ahead of the remote one, and a branch `origin/<trunk>` has its tip: "ahead by 0". */
  lemma StrictlyAheadByZero(refs: Refs, trunk: string, local: Commit, remote: Commit)
    requires LocalTip(refs, trunk) == Some(local) && RemoteTip(refs, trunk) == Some(remote)
    requires LocalRef("origin/" + trunk) in refs && refs[LocalRef("origin/" + trunk)] == local
    requires IsAncestor(remote, local) && remote != local
    ensures |RevList(remote, local)| > 0
    ensures PreferredTrunkStart(refs, trunk) == Ok(TrunkStart(trunk, Some(LocalAhead(0))))
  {
    if IsAncestor(local, remote) {
      AncestryIsAntisymmetric(local, remote);
    }
    RevListEmptyIffAncestor(remote, local);
    RevListEmptyIffAncestor(local, local);
    assert |RevList(local, local)| == 0;
  }

  /** Two commits, local trunk and remote trunk at the second, a branch `origin/main` left at the first. */
  lemma LocalBranchNamedLikeOriginMisleads()
    ensures var first := Commit("first", []);
            var second := Commit("second", [first]);
            var refs := map["refs/heads/main" := second, "refs/remotes/origin/main" := second,
                            "refs/heads/origin/main" := first];
            && PreferredTrunkStart(refs, "main") == Ok(TrunkStart("origin/main", None))
            && Resolve(refs, "origin/main") == Some(first)
            && second !in History(first)
  {
    var first := Commit("first", []);
    assert LocalRef("main") == "refs/heads/main" && LocalRef("origin/main") == "refs/heads/origin/main";
    assert "origin/" + "main" == "origin/main" && RemoteRef("origin/main") == "refs/remotes/origin/main";
    assert "refs/heads/main"[5] == 'h' && "refs/remotes/origin/main"[5] == 'r';
    assert |"refs/heads/main"| != |"refs/heads/origin/main"|;
    assert History(first) == {first};
  }
}
