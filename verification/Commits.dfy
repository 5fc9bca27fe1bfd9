/**
 The commit graph.  A commit is identified by its content and its parents, as a
 Git object name is, so histories are acyclic by construction.
 */
module Commits {

  datatype Commit = Commit(content: string, parents: seq<Commit>)

  /** Every commit reachable from `c`, `c` included. */
  function History(c: Commit): set<Commit> {
    {c} + set p, x | p in c.parents && x in History(p) :: x
  }

  /** `git rev-list excluded..included`. */
  function RevList(excluded: Commit, included: Commit): set<Commit> {
    History(included) - History(excluded)
  }

  /** `git merge-base --is-ancestor older newer`. */
  predicate IsAncestor(older: Commit, newer: Commit) {
    older in History(newer)
  }

  lemma {:induction false} AncestorHistoryIncluded(older: Commit, newer: Commit)
    requires IsAncestor(older, newer)
    ensures History(older) <= History(newer)
    decreases newer
  {
    if older != newer {
      var p :| p in newer.parents && older in History(p);
      AncestorHistoryIncluded(older, p);
    }
  }

  lemma {:induction false} ProperAncestorIsSmaller(older: Commit, newer: Commit)
    requires IsAncestor(older, newer) && older != newer
    ensures older < newer
    decreases newer
  {
    var p :| p in newer.parents && older in History(p);
    if older != p {
      ProperAncestorIsSmaller(older, p);
    }
  }

  /** Two commits that are ancestors of each other are the same commit. */
  lemma AncestryIsAntisymmetric(a: Commit, b: Commit)
    requires IsAncestor(a, b) && IsAncestor(b, a)
    ensures a == b
  {
    if a != b {
      ProperAncestorIsSmaller(a, b);
      ProperAncestorIsSmaller(b, a);
    }
  }

  /** `rev-list a..b` is empty exactly when `b` is an ancestor of `a`. */
  lemma RevListEmptyIffAncestor(excluded: Commit, included: Commit)
    ensures RevList(excluded, included) == {} <==> IsAncestor(included, excluded)
    ensures included in RevList(excluded, included) <==> !IsAncestor(included, excluded)
  {
    if IsAncestor(included, excluded) {
      AncestorHistoryIncluded(included, excluded);
    } else {
      assert included in RevList(excluded, included);
    }
  }
}
