/** The tasks merged most recently, read from the end of the event log. */
module MergedTasks {
  import opened Common
  import opened Text

  function MergedId(line: string, parse: string -> Option<string>): seq<string> {
    if parse(line).Some? then [parse(line).value] else []
  }

  /** The task ids of the merge events of `lines`, oldest first; `parse` reads one line. */
  function MergedIds(lines: seq<string>, parse: string -> Option<string>): seq<string> {
    if lines == [] then []
    else MergedId(lines[0], parse) + MergedIds(lines[1..], parse)
  }

  function Without(ids: seq<string>, x: string): seq<string> {
    if ids == [] then [] else (if ids[0] == x then [] else [ids[0]]) + Without(ids[1..], x)
  }

  /** Playing the log forward: a merge moves its task to the end of the list. */
  function ByLastMerge(ids: seq<string>): seq<string> {
    if ids == [] then []
    else var last := ids[|ids| - 1]; Without(ByLastMerge(ids[..|ids| - 1]), last) + [last]
  }

  function LastN(ids: seq<string>, n: nat): seq<string> {
    if |ids| <= n then ids else ids[|ids| - n..]
  }

  // ---- what playing the log forward gives -----------------------------------------------

  function LastIndex(ids: seq<string>, x: string): (k: nat)
    requires x in ids
    ensures k < |ids| && ids[k] == x && forall i :: k < i < |ids| ==> ids[i] != x
  {
    if ids[|ids| - 1] == x then |ids| - 1
    else
      assert ids == ids[..|ids| - 1] + [ids[|ids| - 1]];
      LastIndex(ids[..|ids| - 1], x)
  }

  /** `xs` lists elements of `ids` in the order of their last occurrence, hence none twice. */
  ghost predicate OrderedByLast(xs: seq<string>, ids: seq<string>) {
    && (forall x :: x in xs ==> x in ids)
    && forall j, k :: 0 <= j < k < |xs| ==> LastIndex(ids, xs[j]) < LastIndex(ids, xs[k])
  }

  lemma {:induction false} WithoutElements(ids: seq<string>, x: string)
    ensures forall y :: y in Without(ids, x) <==> y in ids && y != x
    ensures x !in ids ==> Without(ids, x) == ids
  {
    if ids != [] {
      WithoutElements(ids[1..], x);
      assert ids == [ids[0]] + ids[1..];
    }
  }

  lemma OrderedTail(xs: seq<string>, ids: seq<string>)
    requires xs != [] && OrderedByLast(xs, ids)
    ensures OrderedByLast(xs[1..], ids)
    ensures xs[0] in ids
    ensures forall y :: y in xs[1..] ==> LastIndex(ids, xs[0]) < LastIndex(ids, y)
  {
  }

  lemma OrderedCons(x: string, ys: seq<string>, ids: seq<string>)
    requires OrderedByLast(ys, ids) && x in ids
    requires forall y :: y in ys ==> LastIndex(ids, x) < LastIndex(ids, y)
    ensures OrderedByLast([x] + ys, ids)
  {
  }

  lemma {:induction false} WithoutKeepsOrder(xs: seq<string>, x: string, ids: seq<string>)
    requires OrderedByLast(xs, ids)
    ensures OrderedByLast(Without(xs, x), ids)
  {
    if xs != [] {
      OrderedTail(xs, ids);
      WithoutKeepsOrder(xs[1..], x, ids);
      WithoutElements(xs[1..], x);
      if xs[0] != x {
        OrderedCons(xs[0], Without(xs[1..], x), ids);
      } else {
        assert Without(xs, x) == Without(xs[1..], x);
      }
    }
  }

  lemma OrderAfterMerge(xs: seq<string>, x: string, ids: seq<string>)
    requires OrderedByLast(xs, ids) && x !in xs
    ensures OrderedByLast(xs + [x], ids + [x])
  {
  }

  /** Every merged task is listed once, ordered by its last merge. */
  lemma {:induction false} ListsEachOnceByLastMerge(ids: seq<string>)
    ensures forall x :: x in ByLastMerge(ids) <==> x in ids
    ensures OrderedByLast(ByLastMerge(ids), ids)
  {
    if ids != [] {
      var init, last := ids[..|ids| - 1], ids[|ids| - 1];
      assert ids == init + [last];
      ListsEachOnceByLastMerge(init);
      WithoutElements(ByLastMerge(init), last);
      WithoutKeepsOrder(ByLastMerge(init), last, init);
      OrderAfterMerge(Without(ByLastMerge(init), last), last, init);
    }
  }

  // ---- reading the log backward -----------------------------------------------------------

  lemma ByLastMergeSnoc(ids: seq<string>, last: string)
    ensures ByLastMerge(ids + [last]) == Without(ByLastMerge(ids), last) + [last]
  {
  }

  lemma MergeAfterHead(x: string, seen: seq<string>, last: string)
    ensures Without([x] + seen, last) + [last]
            == if x == last then Without(seen, last) + [last] else [x] + (Without(seen, last) + [last])
  {
  }

  /** An earlier merge matters only for a task that was not merged again. */
  lemma {:induction false} EarlierMerge(x: string, ids: seq<string>)
    ensures ByLastMerge([x] + ids) == if x in ids then ByLastMerge(ids) else [x] + ByLastMerge(ids)
    decreases |ids|
  {
    if ids == [] {
      ByLastMergeSnoc([], x);
      assert [] + [x] == [x] + [];
    } else {
      var init, last := ids[..|ids| - 1], ids[|ids| - 1];
      assert ids == init + [last];
      EarlierMerge(x, init);
      ConcatAssociative([x], init, [last]);
      ByLastMergeSnoc([x] + init, last);
      ByLastMergeSnoc(init, last);
      MergeAfterHead(x, ByLastMerge(init), last);
    }
  }

  lemma {:induction false} SuffixByLastMerge(a: seq<string>, b: seq<string>) returns (older: seq<string>)
    ensures ByLastMerge(a + b) == older + ByLastMerge(b)
  {
    if a == [] {
      assert a + b == b;
      older := [];
    } else {
      assert a + b == [a[0]] + (a[1..] + b);
      EarlierMerge(a[0], a[1..] + b);
      older := SuffixByLastMerge(a[1..], b);
      if a[0] !in a[1..] + b {
        assert [a[0]] + (older + ByLastMerge(b)) == [a[0]] + older + ByLastMerge(b);
        older := [a[0]] + older;
      }
    }
  }

  lemma {:induction false} MergedIdsConcat(a: seq<string>, b: seq<string>, parse: string -> Option<string>)
    ensures MergedIds(a + b, parse) == MergedIds(a, parse) + MergedIds(b, parse)
  {
    if a == [] {
      assert a + b == b;
    } else {
      assert (a + b)[1..] == a[1..] + b && (a + b)[0] == a[0];
      MergedIdsConcat(a[1..], b, parse);
      ConcatAssociative(MergedId(a[0], parse), MergedIds(a[1..], parse), MergedIds(b, parse));
    }
  }

  lemma {:induction false} ReversedLength(ids: seq<string>)
    ensures |Reversed(ids)| == |ids|
  {
    if ids != [] {
      ReversedLength(ids[1..]);
    }
  }

  lemma {:induction false} ReversedPush(ids: seq<string>, x: string)
    ensures Reversed(ids + [x]) == [x] + Reversed(ids)
    ensures forall y :: y in Reversed(ids) <==> y in ids
  {
    if ids == [] {
      assert ids + [x] == [x] && [x][1..] == [];
    } else {
      assert (ids + [x])[1..] == ids[1..] + [x] && (ids + [x])[0] == ids[0];
      ReversedPush(ids[1..], x);
      ConcatAssociative([x], Reversed(ids[1..]), [ids[0]]);
      assert ids == [ids[0]] + ids[1..];
    }
  }

  /** The ids of the lines from `i` on, by last merge. */
  function Recent(lines: seq<string>, i: nat, parse: string -> Option<string>): seq<string>
    requires i <= |lines|
  {
    ByLastMerge(MergedIds(lines[i..], parse))
  }

  /** One line further back: what the collected list has to become. */
  lemma LineBack(lines: seq<string>, i: nat, parse: string -> Option<string>, taskIds: seq<string>)
    requires i < |lines| && Reversed(taskIds) == Recent(lines, i + 1, parse)
    ensures parse(lines[i]).None? ==> Recent(lines, i, parse) == Recent(lines, i + 1, parse)
    ensures parse(lines[i]).Some? ==>
      var id := parse(lines[i]).value;
      Recent(lines, i, parse) == Reversed(if id in taskIds then taskIds else taskIds + [id])
  {
    var later := MergedIds(lines[i + 1..], parse);
    assert lines[i..][1..] == lines[i + 1..];
    if parse(lines[i]).Some? {
      var id := parse(lines[i]).value;
      EarlierMerge(id, later);
      ListsEachOnceByLastMerge(later);
      ReversedPush(taskIds, id);
    } else {
      assert [] + later == later;
    }
  }

  /** The tail of a longer history is all that the limit lets through. */
  lemma LastOfHistory(lines: seq<string>, i: nat, parse: string -> Option<string>, n: nat)
    requires i <= |lines| && |Recent(lines, i, parse)| == n
    ensures LastN(Recent(lines, 0, parse), n) == Recent(lines, i, parse)
  {
    assert lines[0..] == lines && lines == lines[..i] + lines[i..];
    MergedIdsConcat(lines[..i], lines[i..], parse);
    var older := SuffixByLastMerge(MergedIds(lines[..i], parse), MergedIds(lines[i..], parse));
  }

  lemma WholeHistory(lines: seq<string>, parse: string -> Option<string>)
    ensures Recent(lines, 0, parse) == ByLastMerge(MergedIds(lines, parse))
  {
    assert lines[0..] == lines;
  }

  /**
   * `collect_recently_merged_task_ids`: the last `limit` tasks by last merge, oldest first. The limit is
   * looked at after a task was taken, so a limit of 0 lets one through.
   */
  method CollectRecentlyMerged(content: string, parse: string -> Option<string>, limit: nat)
    returns (taskIds: seq<string>)
    ensures taskIds == LastN(ByLastMerge(MergedIds(Lines(content), parse)), if limit == 0 then 1 else limit)
  {
    var lines := Lines(content);
    WholeHistory(lines, parse);
    ghost var most := if limit == 0 then 1 else limit;
    taskIds := [];
    var i := |lines|;
    while i > 0
      invariant 0 <= i <= |lines|
      invariant Reversed(taskIds) == Recent(lines, i, parse)
      invariant |taskIds| < limit || taskIds == []
    {
      i := i - 1;
      LineBack(lines, i, parse, taskIds);
      if parse(lines[i]).None? {
        continue;
      }
      var taskId := parse(lines[i]).value;
      if taskId !in taskIds {
        taskIds := taskIds + [taskId];
      }
      assert Reversed(taskIds) == Recent(lines, i, parse);
      if |taskIds| >= limit {
        ReversedLength(taskIds);
        LastOfHistory(lines, i, parse, most);
        return Reversed(taskIds);
      }
    }
    ReversedLength(taskIds);
    assert |taskIds| <= most;
    return Reversed(taskIds);
  }
}
