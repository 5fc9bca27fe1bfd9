/** What a screen is made of: the words of a line, and the recent lines. */
module Screens {
  import opened Common
  import opened Text
  import opened PhraseMatch
  import Utf8

  // ---- words of a line -------------------------------------------------------------

  lemma {:induction false} WordsFromConcat(current: string, a: string, c: char, b: string)
    requires IsWhitespace(c)
    ensures WordsFrom(current, a + [c] + b) == WordsFrom(current, a) + Words(b)
    decreases |a|
  {
    if a == "" {
      assert a + [c] + b == [c] + b && ([c] + b)[1..] == b;
    } else {
      assert (a + [c] + b)[0] == a[0] && (a + [c] + b)[1..] == a[1..] + [c] + b;
      if IsWhitespace(a[0]) {
        WordsFromConcat("", a[1..], c, b);
        ConcatAssociative(if current == "" then [] else [current], WordsFrom("", a[1..]), Words(b));
      } else {
        WordsFromConcat(current + [a[0]], a[1..], c, b);
      }
    }
  }

  /** Whitespace separates words and is nothing else. */
  lemma WordsAtWhitespace(a: string, c: char, b: string)
    requires IsWhitespace(c)
    ensures Words(a + [c] + b) == Words(a) + Words(b)
  {
    WordsFromConcat("", a, c, b);
  }

  /** A word is one word. */
  lemma WordsOfWord(w: string)
    requires IsWord(w)
    ensures Words(w) == [w]
  {
    WordsFromWord("", w, "");
    assert w + "" == w && "" + w == w;
  }

  lemma {:induction false} ReplaceInConcat(a: string, b: string)
    ensures ReplaceEllipsis(a + b) == ReplaceEllipsis(a) + ReplaceEllipsis(b)
  {
    if a == "" {
      assert a + b == b;
    } else {
      assert (a + b)[1..] == a[1..] + b;
      ReplaceInConcat(a[1..], b);
      ConcatAssociative(if a[0] == ELLIPSIS then "..." else [a[0]], ReplaceEllipsis(a[1..]), ReplaceEllipsis(b));
    }
  }

  lemma LowercaseOfThree(a: string, b: string, c: string)
    ensures ToAsciiLowercase(a + b + c) == ToAsciiLowercase(a) + ToAsciiLowercase(b) + ToAsciiLowercase(c)
  {
  }

  lemma ReplaceInThree(a: string, b: string, c: string)
    ensures ReplaceEllipsis(a + b + c) == ReplaceEllipsis(a) + ReplaceEllipsis(b) + ReplaceEllipsis(c)
  {
    ReplaceInConcat(a + b, c);
    ReplaceInConcat(a, b);
  }

  lemma {:induction false} WithoutEllipsis(s: string)
    requires ELLIPSIS !in s
    ensures ReplaceEllipsis(s) == s
  {
    if s != "" {
      WithoutEllipsis(s[1..]);
    }
  }

  /** A line is read the same with an ellipsis, with three dots, and in upper or lower case. */
  lemma EllipsisIsThreeDots(a: string, b: string)
    ensures Normalized(a + [ELLIPSIS] + b) == Normalized(a + "..." + b)
  {
    var dots, one := "...", [ELLIPSIS];
    LowercaseOfThree(a, one, b);
    LowercaseOfThree(a, dots, b);
    assert ToAsciiLowercase(one) == one && ToAsciiLowercase(dots) == dots;
    ReplaceInThree(ToAsciiLowercase(a), one, ToAsciiLowercase(b));
    ReplaceInThree(ToAsciiLowercase(a), dots, ToAsciiLowercase(b));
    WithoutEllipsis(dots);
    assert one[1..] == "";
    assert ReplaceEllipsis(one) == dots;
  }

  lemma CaseDoesNotMatter(a: string, b: string)
    requires ToAsciiLowercase(a) == ToAsciiLowercase(b)
    ensures Normalized(a) == Normalized(b)
    ensures Normalized(ToAsciiLowercase(a)) == Normalized(a)
  {
    assert ToAsciiLowercase(ToAsciiLowercase(a)) == ToAsciiLowercase(a);
  }

  // ---- scores ------------------------------------------------------------------------

  predicate ProperPrefix(a: string, b: string) {
    a != "" && a != b && a <= b
  }

  /**
   The line goes along with the phrase for `k` words: the last of them is cut off, or it
   is the last word of the line or of the phrase; all others are the same.
   */
  predicate GoesAlong(line: seq<string>, phrase: seq<string>, k: nat) {
    && 0 < k <= |line| && k <= |phrase|
    && (forall i :: 0 <= i < k - 1 ==> line[i] == phrase[i])
    && (ProperPrefix(line[k - 1], phrase[k - 1])
        || (line[k - 1] == phrase[k - 1] && (k == |line| || k == |phrase|)))
  }

  lemma GoesAlongStep(line: seq<string>, phrase: seq<string>, k: nat)
    requires line != [] && phrase != [] && k > 1
    ensures GoesAlong(line, phrase, k) <==> line[0] == phrase[0] && GoesAlong(line[1..], phrase[1..], k - 1)
  {
    var l, p := line[1..], phrase[1..];
    assert forall i :: 0 <= i < |l| ==> l[i] == line[i + 1];
    assert forall i :: 0 <= i < |p| ==> p[i] == phrase[i + 1];
    if line[0] == phrase[0] && GoesAlong(l, p, k - 1) {
      forall i | 0 <= i < k - 1
        ensures line[i] == phrase[i]
      {
        if i > 0 {
          assert l[i - 1] == p[i - 1];
        }
      }
    }
    if GoesAlong(line, phrase, k) {
      forall i | 0 <= i < k - 2
        ensures l[i] == p[i]
      {
        assert line[i + 1] == phrase[i + 1];
      }
    }
  }

  /** `FollowPhrase` finds how far the line goes along, and whether the last word is cut off. */
  lemma {:induction false} FollowExact(line: seq<string>, phrase: seq<string>, k: nat)
    requires k > 0
    ensures var f := FollowPhrase(line, phrase);
            && (f.Follow? && f.matched == k <==> GoesAlong(line, phrase, k))
            && (f.Follow? && f.matched == k ==>
                  f.consumed == TotalLength(line[..k]) && (f.cutOff <==> line[k - 1] != phrase[k - 1]))
  {
    if line != [] && phrase != [] {
      if line[0] == phrase[0] {
        if k > 1 {
          FollowExact(line[1..], phrase[1..], k - 1);
          GoesAlongStep(line, phrase, k);
          if k <= |line| {
            TotalOfMore(line, k);
          }
        } else {
          OnlyOneFollows(line, phrase);
        }
      } else {
        TotalOfOne(line);
      }
    }
  }

  lemma TotalOfMore(line: seq<string>, k: nat)
    requires 0 < k <= |line|
    ensures TotalLength(line[..k]) == Utf8.ByteLength(line[0]) + TotalLength(line[1..][..k - 1])
  {
    assert line[..k][1..] == line[1..][..k - 1];
  }

  lemma TotalOfOne(line: seq<string>)
    requires line != []
    ensures TotalLength(line[..1]) == Utf8.ByteLength(line[0])
  {
    TotalOfMore(line, 1);
  }

  lemma OnlyOneFollows(line: seq<string>, phrase: seq<string>)
    requires line != [] && phrase != [] && line[0] == phrase[0]
    ensures var f := FollowPhrase(line, phrase);
            && (f.Follow? && f.matched == 1 <==> |line| == 1 || |phrase| == 1)
            && (f.Follow? && f.matched == 1 ==> f.consumed == TotalLength(line[..1]) && !f.cutOff)
  {
    TotalOfOne(line);
    if |line| > 1 && |phrase| > 1 {
      var rest := FollowPhrase(line[1..], phrase[1..]);
      assert line[1..] != [] && phrase[1..] != [];
      assert rest.Follow? ==> rest.matched >= 1;
    }
  }

  /** So many percent of the characters of the phrase stand in the first `k` words of the line. */
  predicate Covers(line: seq<string>, phrase: seq<string>, k: nat, percent: nat)
    requires k <= |line|
  {
    100 * TotalLength(line[..k]) >= percent * TotalLength(phrase)
  }

  /**
   The score of a position, whatever the line and the phrase are: the whole phrase; two or
   more words and 45 percent of the characters; one word and 25 percent; or nothing.
   */
  lemma ScoreExact(line: seq<string>, phrase: seq<string>)
    requires phrase != []
    ensures PrefixScore(line, phrase) in {0, 45, 84, 100}
    ensures PrefixScore(line, phrase) == 100 <==> phrase <= line
    ensures PrefixScore(line, phrase) == 84 <==>
              !(phrase <= line) && exists k: nat :: k >= 2 && GoesAlong(line, phrase, k) && Covers(line, phrase, k, 45)
    ensures PrefixScore(line, phrase) == 45 <==>
              !(phrase <= line) && GoesAlong(line, phrase, 1) && Covers(line, phrase, 1, 25)
  {
    var f := FollowPhrase(line, phrase);
    FollowExact(line, phrase, |phrase|);
    if phrase <= line {
      assert forall i :: 0 <= i < |phrase| ==> line[i] == phrase[i];
      assert GoesAlong(line, phrase, |phrase|);
    }
    if f.Follow? && f.matched == |phrase| && !f.cutOff {
      FullMatchIsPrefix(line, phrase);
    }
    FollowExact(line, phrase, 1);
    forall k: nat | k >= 2
      ensures GoesAlong(line, phrase, k) ==> f.Follow? && f.matched == k && f.consumed == TotalLength(line[..k])
    {
      FollowExact(line, phrase, k);
    }
    if f.Follow? && f.matched >= 2 {
      FollowExact(line, phrase, f.matched);
    }
  }

  /** The confidence over several phrases is the best one that any of them has. */
  lemma {:induction false} BestConfidenceExact(line: string, phrases: seq<string>)
    ensures match BestConfidence(line, phrases)
            case None => forall k :: 0 <= k < |phrases| ==> PhraseConfidence(line, phrases[k]).None?
            case Some(best) =>
              && (exists k :: 0 <= k < |phrases| && PhraseConfidence(line, phrases[k]) == Some(best))
              && forall k :: 0 <= k < |phrases| && PhraseConfidence(line, phrases[k]).Some? ==>
                   PhraseConfidence(line, phrases[k]).value <= best
  {
    if phrases != [] {
      BestConfidenceExact(line, phrases[1..]);
      assert forall k :: 0 < k < |phrases| ==> phrases[k] == phrases[1..][k - 1];
      var best := BestConfidence(line, phrases);
      if best.Some? && PhraseConfidence(line, phrases[0]) != best {
        var k :| 0 <= k < |phrases[1..]| && PhraseConfidence(line, phrases[1..][k]) == best;
        assert PhraseConfidence(line, phrases[k + 1]) == best;
      }
    }
  }

  // ---- the recent lines --------------------------------------------------------------

  predicate IsBlank(line: string) {
    forall i :: 0 <= i < |line| ==> IsWhitespace(line[i])
  }

  lemma BlankIff(line: string)
    ensures Trim(line) == "" <==> IsBlank(line)
  {
    TrimStartFacts(line);
    TrimEndFacts(TrimStart(line));
    TrimFacts(line);
  }

  ghost predicate Increasing(at: seq<nat>) {
    forall i, j :: 0 <= i < j < |at| ==> at[i] < at[j]
  }

  ghost predicate Descending(at: seq<nat>) {
    forall i, j :: 0 <= i < j < |at| ==> at[i] > at[j]
  }

  /** The positions of the lines that are not blank. */
  ghost predicate Positions(at: seq<nat>, lines: seq<string>) {
    && Increasing(at)
    && (forall i :: 0 <= i < |at| ==> at[i] < |lines| && !IsBlank(lines[at[i]]))
    && forall k :: 0 <= k < |lines| && !IsBlank(lines[k]) ==> k in at
  }

  function Shifted(at: seq<nat>): seq<nat> {
    seq(|at|, i requires 0 <= i < |at| => at[i] + 1)
  }

  /** The positions in the whole from those in the rest. */
  function Extended(lines: seq<string>, at: seq<nat>): seq<nat>
    requires lines != []
  {
    (if IsBlank(lines[0]) then [] else [0]) + Shifted(at)
  }

  lemma ShiftedPosition(lines: seq<string>, at: seq<nat>, k: nat)
    requires lines != [] && Positions(at, lines[1..])
    requires k < |lines| && !IsBlank(lines[k])
    ensures k in Extended(lines, at)
  {
    var all := Extended(lines, at);
    if k == 0 {
      assert all[0] == 0;
    } else {
      assert lines[1..][k - 1] == lines[k];
      var i :| 0 <= i < |at| && at[i] == k - 1;
      assert all[|all| - |at| + i] == k;
    }
  }

  lemma ShiftedInOrder(lines: seq<string>, at: seq<nat>)
    requires lines != [] && Positions(at, lines[1..])
    ensures Increasing(Extended(lines, at))
    ensures forall i :: 0 <= i < |Extended(lines, at)| ==>
              Extended(lines, at)[i] < |lines| && !IsBlank(lines[Extended(lines, at)[i]])
  {
    var all := Extended(lines, at);
    var o := |all| - |at|;
    forall i | o <= i < |all|
      ensures all[i] == at[i - o] + 1 && lines[all[i]] == lines[1..][at[i - o]]
    {
    }
  }

  lemma ShiftedPositions(lines: seq<string>, at: seq<nat>)
    requires lines != [] && Positions(at, lines[1..])
    ensures Positions(Extended(lines, at), lines)
  {
    ShiftedInOrder(lines, at);
    forall k | 0 <= k < |lines| && !IsBlank(lines[k])
      ensures k in Extended(lines, at)
    {
      ShiftedPosition(lines, at, k);
    }
  }

  /** The lines at the positions, in order. */
  ghost predicate AreAt(found: seq<string>, lines: seq<string>, at: seq<nat>) {
    |found| == |at| && forall i :: 0 <= i < |at| ==> at[i] < |lines| && found[i] == lines[at[i]]
  }

  lemma ExtendedAreAt(found: seq<string>, lines: seq<string>, at: seq<nat>)
    requires lines != [] && AreAt(found, lines[1..], at)
    ensures AreAt((if IsBlank(lines[0]) then [] else [lines[0]]) + found, lines, Extended(lines, at))
  {
  }

  lemma {:induction false} NonBlankPositions(lines: seq<string>) returns (at: seq<nat>)
    ensures Positions(at, lines) && AreAt(NonBlank(lines), lines, at)
  {
    at := [];
    if lines != [] {
      at := NonBlankPositions(lines[1..]);
      BlankIff(lines[0]);
      ShiftedPositions(lines, at);
      ExtendedAreAt(NonBlank(lines[1..]), lines, at);
      at := Extended(lines, at);
    }
  }

  lemma {:induction false} ReversedAt<T>(s: seq<T>, k: nat)
    requires k < |s|
    ensures |Reversed(s)| == |s| && Reversed(s)[k] == s[|s| - 1 - k]
  {
    if |s| > 1 {
      ReversedAt(s[1..], if k < |s| - 1 then k else 0);
    }
  }

  /**
   The positions `at` are those of the last lines that are not blank, from the last one
   up: of twelve of them, or of all when there are no more.
   */
  ghost predicate LastTwelve(at: seq<nat>, lines: seq<string>) {
    && |at| <= 12
    && Descending(at)
    && (forall i :: 0 <= i < |at| ==> at[i] < |lines| && !IsBlank(lines[at[i]]))
    && forall k :: 0 <= k < |lines| && !IsBlank(lines[k]) ==> k in at || (|at| == 12 && k < at[11])
  }

  function Mirrored(at: seq<nat>, n: nat): seq<nat>
    requires forall i :: 0 <= i < |at| ==> at[i] < n
  {
    seq(|at|, i requires 0 <= i < |at| => n - 1 - at[i])
  }

  ghost predicate AreReversed(lines: seq<string>, back: seq<string>) {
    |back| == |lines| && forall k :: 0 <= k < |lines| ==> back[k] == lines[|lines| - 1 - k]
  }

  lemma ReversedLines(lines: seq<string>)
    ensures AreReversed(lines, Reversed(lines))
  {
    forall k | 0 <= k < |lines|
      ensures |Reversed(lines)| == |lines| && Reversed(lines)[k] == lines[|lines| - 1 - k]
    {
      ReversedAt(lines, k);
    }
    if lines != [] {
      ReversedAt(lines, 0);
    }
  }

  lemma MirroredInOrder(lines: seq<string>, back: seq<string>, at: seq<nat>)
    requires Positions(at, back) && AreReversed(lines, back)
    ensures var all := Mirrored(at, |lines|);
            && Descending(all)
            && (forall i :: 0 <= i < |all| ==> all[i] < |lines| && back[at[i]] == lines[all[i]])
  {
  }

  lemma MirroredAll(lines: seq<string>, back: seq<string>, at: seq<nat>, k: nat)
    requires Positions(at, back) && AreReversed(lines, back)
    requires k < |lines| && !IsBlank(lines[k])
    ensures k in Mirrored(at, |lines|)
  {
    var m := |lines| - 1 - k;
    assert back[m] == lines[k];
    var i :| 0 <= i < |at| && at[i] == m;
    assert Mirrored(at, |lines|)[i] == k;
  }

  /** The first twelve of descending numbers are there, and the others are smaller than the twelfth. */
  lemma FirstTwelve(all: seq<nat>, k: nat, n: nat)
    requires Descending(all) && n == (if |all| <= 12 then |all| else 12) && k in all
    ensures k in all[..n] || (n == 12 && k < all[11])
  {
    var i :| 0 <= i < |all| && all[i] == k;
    if i < n {
      assert all[..n][i] == k;
    }
  }

  lemma LastTwelveOf(lines: seq<string>, all: seq<nat>, n: nat)
    requires Descending(all) && n == (if |all| <= 12 then |all| else 12)
    requires forall i :: 0 <= i < |all| ==> all[i] < |lines| && !IsBlank(lines[all[i]])
    requires forall k :: 0 <= k < |lines| && !IsBlank(lines[k]) ==> k in all
    ensures LastTwelve(all[..n], lines)
  {
    forall k: nat | k < |lines| && !IsBlank(lines[k])
      ensures k in all[..n] || (n == 12 && k < all[11])
    {
      FirstTwelve(all, k, n);
    }
  }

  /** The lines that a verdict is based on are the last twelve lines of the screen that are not blank, last first. */
  lemma RecentIsLastTwelve(content: string) returns (at: seq<nat>)
    ensures LastTwelve(at, Lines(content)) && AreAt(Recent(content), Lines(content), at)
  {
    var lines := Lines(content);
    var back := Reversed(lines);
    ReversedLines(lines);
    var found := NonBlankPositions(back);
    var all := Mirrored(found, |lines|);
    MirroredInOrder(lines, back, found);
    forall k | 0 <= k < |lines| && !IsBlank(lines[k])
      ensures k in all
    {
      MirroredAll(lines, back, found, k);
    }
    var n := if |all| <= 12 then |all| else 12;
    LastTwelveOf(lines, all, n);
    at := all[..n];
    MirroredLines(lines, NonBlank(back), all, n);
  }

  lemma MirroredLines(lines: seq<string>, found: seq<string>, all: seq<nat>, n: nat)
    requires AreAt(found, lines, all) && n <= |all|
    ensures AreAt(found[..n], lines, all[..n])
  {
  }

  /** The prompt of an idle agent: the first character of the line that is not whitespace. */
  lemma PromptIff(line: string)
    ensures ShowsPrompt(line) <==>
              exists i :: 0 <= i < |line| && line[i] == PROMPT && IsBlank(line[..i])
  {
    TrimStartFacts(line);
    TrimEndFacts(TrimStart(line));
    BlankIff(line);
    var n := |line| - |TrimStart(line)|;
    if ShowsPrompt(line) {
      assert line[n] == PROMPT && IsBlank(line[..n]);
    }
    if i :| 0 <= i < |line| && line[i] == PROMPT && IsBlank(line[..i]) {
      assert !IsWhitespace(line[i]);
      assert forall k :: 0 <= k < i ==> line[..i][k] == line[k];
      assert i == n;
    }
  }
}
