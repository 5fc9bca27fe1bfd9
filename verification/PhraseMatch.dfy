/** Fuzzy search for status phrases on a terminal screen that may have cut them off. */
module PhraseMatch {
  import opened Common
  import opened Text
  import Utf8

  // ---- normalized text -------------------------------------------------------------

  const ELLIPSIS: char := '\U{2026}'

  function ReplaceEllipsis(s: string): string {
    if s == "" then "" else (if s[0] == ELLIPSIS then "..." else [s[0]]) + ReplaceEllipsis(s[1..])
  }

  /** The words of `s`, the first of which continues `current`. */
  function WordsFrom(current: string, s: string): seq<string>
    decreases |s|
  {
    if s == "" then (if current == "" then [] else [current])
    else if IsWhitespace(s[0]) then (if current == "" then [] else [current]) + WordsFrom("", s[1..])
    else WordsFrom(current + [s[0]], s[1..])
  }

  /** `str::split_whitespace`. */
  function Words(s: string): seq<string> {
    WordsFrom("", s)
  }

  function NormalizedWords(s: string): seq<string> {
    Words(ReplaceEllipsis(ToAsciiLowercase(s)))
  }

  function Normalized(s: string): string {
    Join(NormalizedWords(s), " ")
  }

  predicate IsWord(w: string) {
    w != "" && forall i :: 0 <= i < |w| ==> !IsWhitespace(w[i])
  }

  predicate AllWords(ws: seq<string>) {
    forall i :: 0 <= i < |ws| ==> IsWord(ws[i])
  }

  lemma {:induction false} WordsFromAreWords(current: string, s: string)
    requires current == "" || IsWord(current)
    ensures AllWords(WordsFrom(current, s))
    decreases |s|
  {
    if s != "" {
      if IsWhitespace(s[0]) {
        WordsFromAreWords("", s[1..]);
      } else {
        WordsFromAreWords(current + [s[0]], s[1..]);
      }
    }
  }

  lemma {:induction false} WordsFromWord(current: string, w: string, rest: string)
    requires forall i :: 0 <= i < |w| ==> !IsWhitespace(w[i])
    ensures WordsFrom(current, w + rest) == WordsFrom(current + w, rest)
    decreases |w|
  {
    if w == "" {
      assert w + rest == rest && current + w == current;
    } else {
      assert (w + rest)[1..] == w[1..] + rest;
      assert current + [w[0]] + w[1..] == current + w;
      WordsFromWord(current + [w[0]], w[1..], rest);
    }
  }

  /** Splitting a normalized text gives its words back. */
  lemma {:induction false} WordsOfJoin(ws: seq<string>)
    requires AllWords(ws)
    ensures Words(Join(ws, " ")) == ws
  {
    if |ws| == 1 {
      WordsFromWord("", ws[0], "");
      assert ws[0] + "" == ws[0] && "" + ws[0] == ws[0];
    } else if |ws| > 1 {
      var rest := " " + Join(ws[1..], " ");
      assert Join(ws, " ") == ws[0] + rest;
      WordsFromWord("", ws[0], rest);
      assert "" + ws[0] == ws[0];
      assert rest[1..] == Join(ws[1..], " ");
      WordsOfJoin(ws[1..]);
    }
  }

  lemma {:induction false} JoinOfConcat(a: seq<string>, b: seq<string>)
    requires a != [] && b != []
    ensures Join(a + b, " ") == Join(a, " ") + " " + Join(b, " ")
  {
    if |a| == 1 {
      assert (a + b)[1..] == b;
    } else {
      assert (a + b)[1..] == a[1..] + b;
      JoinOfConcat(a[1..], b);
      assert (a + b)[0] == a[0];
    }
  }

  lemma ContainsMiddle(before: string, part: string, after: string)
    ensures Contains(before + part + after, part)
  {
    var s := before + part + after;
    assert s[|before|..] == part + after;
  }

  lemma TextBefore(a: seq<string>, b: seq<string>) returns (before: string)
    requires b != []
    ensures Join(a + b, " ") == before + Join(b, " ")
  {
    if a == [] {
      assert a + b == b;
      before := "";
    } else {
      JoinOfConcat(a, b);
      before := Join(a, " ") + " ";
    }
  }

  lemma TextAfter(b: seq<string>, c: seq<string>) returns (after: string)
    requires b != []
    ensures Join(b + c, " ") == Join(b, " ") + after
  {
    if c == [] {
      assert b + c == b;
      after := "";
    } else {
      JoinOfConcat(b, c);
      ConcatAssociative(Join(b, " "), " ", Join(c, " "));
      after := " " + Join(c, " ");
    }
  }

  /** Consecutive words stand in the text as their own text. */
  lemma SublistContained(a: seq<string>, b: seq<string>, c: seq<string>)
    requires b != []
    ensures Contains(Join(a + (b + c), " "), Join(b, " "))
  {
    var before := TextBefore(a, b + c);
    var after := TextAfter(b, c);
    ConcatAssociative(before, Join(b, " "), after);
    ContainsMiddle(before, Join(b, " "), after);
  }

  lemma PrefixContained(ws: seq<string>, part: seq<string>)
    requires part != [] && part <= ws
    ensures Contains(Join(ws, " "), Join(part, " "))
  {
    assert ws == [] + (part + ws[|part|..]);
    SublistContained([], part, ws[|part|..]);
  }

  // ---- the score of one position -----------------------------------------------------

  /** How far the words of the line follow the phrase. */
  datatype Follow = Mismatch | Follow(matched: nat, consumed: nat, cutOff: bool)

  function FollowPhrase(line: seq<string>, phrase: seq<string>): Follow {
    if line == [] || phrase == [] then Follow(0, 0, false)
    else if line[0] == phrase[0] then
      match FollowPhrase(line[1..], phrase[1..])
      case Mismatch => Mismatch
      case Follow(m, c, cut) => Follow(1 + m, Utf8.ByteLength(phrase[0]) + c, cut)
    else if line[0] <= phrase[0] && line[0] != "" then Follow(1, Utf8.ByteLength(line[0]), true)
    else Mismatch
  }

  function TotalLength(ws: seq<string>): nat {
    if ws == [] then 0 else Utf8.ByteLength(ws[0]) + TotalLength(ws[1..])
  }

  /** Confidence in percent; 0 stands for no match. */
  function ScoreOf(f: Follow, phrase: seq<string>): nat {
    match f
    case Mismatch => 0
    case Follow(matched, consumed, cutOff) =>
      if matched == 0 then 0
      else if matched == |phrase| && !cutOff then 100
      else if matched >= 2 && 100 * consumed >= 45 * TotalLength(phrase) then 84
      else if matched == 1 && 100 * consumed >= 25 * TotalLength(phrase) then 45
      else 0
  }

  function PrefixScore(line: seq<string>, phrase: seq<string>): nat {
    ScoreOf(FollowPhrase(line, phrase), phrase)
  }

  /** Counts with a loop that stops at the first word that is cut off. */
  method TokenPrefixScore(line: seq<string>, phrase: seq<string>) returns (score: nat)
    ensures score == PrefixScore(line, phrase)
  {
    var matched: nat, consumed: nat, cutOff := 0, 0, false;
    var i := 0;
    while i < |line| && i < |phrase|
      invariant i <= |line| && i <= |phrase| && matched == i && !cutOff
      invariant FollowPhrase(line, phrase) ==
                  match FollowPhrase(line[i..], phrase[i..])
                  case Mismatch => Mismatch
                  case Follow(m, c, cut) => Follow(matched + m, consumed + c, cut)
    {
      assert line[i..][0] == line[i] && line[i..][1..] == line[i + 1..];
      assert phrase[i..][0] == phrase[i] && phrase[i..][1..] == phrase[i + 1..];
      if line[i] == phrase[i] {
        matched, consumed := matched + 1, consumed + Utf8.ByteLength(phrase[i]);
        i := i + 1;
        continue;
      }
      if line[i] <= phrase[i] && line[i] != "" {
        matched, consumed, cutOff := matched + 1, consumed + Utf8.ByteLength(line[i]), true;
        break;
      }
      return 0;
    }
    score := ScoreOf(Follow(matched, consumed, cutOff), phrase);
  }

  /** The full score means that the phrase stands there word for word. */
  lemma {:induction false} FullMatchIsPrefix(line: seq<string>, phrase: seq<string>)
    requires var f := FollowPhrase(line, phrase); f.Follow? && f.matched == |phrase| && !f.cutOff
    ensures phrase <= line
  {
    if phrase != [] && line != [] {
      FullMatchIsPrefix(line[1..], phrase[1..]);
    }
  }

  lemma {:induction false} FollowBounds(line: seq<string>, phrase: seq<string>)
    ensures var f := FollowPhrase(line, phrase); f.Follow? ==> f.matched <= |phrase| && f.matched <= |line|
  {
    if line != [] && phrase != [] && line[0] == phrase[0] {
      FollowBounds(line[1..], phrase[1..]);
    }
  }

  // ---- the confidence of a line ------------------------------------------------------

  /** The score at the first position where there is any. */
  function FirstScore(line: seq<string>, phrase: seq<string>): Option<nat> {
    if line == [] then None
    else if PrefixScore(line, phrase) > 0 then Some(PrefixScore(line, phrase))
    else FirstScore(line[1..], phrase)
  }

  function PhraseConfidence(line: string, phrase: string): Option<nat> {
    var l, p := Normalized(line), Normalized(phrase);
    if l == "" || p == "" then None
    else if Contains(l, p) then Some(100)
    else FirstScore(Words(l), Words(p))
  }

  method PhraseMatchConfidence(line: string, phrase: string) returns (confidence: Option<nat>)
    ensures confidence == PhraseConfidence(line, phrase)
  {
    var l, p := Normalized(line), Normalized(phrase);
    if l == "" || p == "" {
      return None;
    }
    if Contains(l, p) {
      return Some(100);
    }
    var lineWords, phraseWords := Words(l), Words(p);
    for start := 0 to |lineWords|
      invariant FirstScore(lineWords, phraseWords) == FirstScore(lineWords[start..], phraseWords)
    {
      assert lineWords[start..][1..] == lineWords[start + 1..];
      var score := TokenPrefixScore(lineWords[start..], phraseWords);
      if score > 0 {
        return Some(score);
      }
    }
    return None;
  }

  lemma NormalizedWordsFacts(s: string)
    ensures AllWords(NormalizedWords(s)) && Words(Normalized(s)) == NormalizedWords(s)
    ensures Normalized(s) == "" <==> NormalizedWords(s) == []
  {
    WordsFromAreWords("", ReplaceEllipsis(ToAsciiLowercase(s)));
    WordsOfJoin(NormalizedWords(s));
  }

  lemma PrefixBelowFull(line: seq<string>, phrase: seq<string>)
    requires phrase != [] && !Contains(Join(line, " "), Join(phrase, " "))
    ensures PrefixScore(line, phrase) != 100
  {
    if PrefixScore(line, phrase) == 100 {
      FullMatchIsPrefix(line, phrase);
      PrefixContained(line, phrase);
    }
  }

  lemma {:induction false} FirstScoreBelowFull(line: seq<string>, phrase: seq<string>)
    requires phrase != [] && !Contains(Join(line, " "), Join(phrase, " "))
    ensures FirstScore(line, phrase) != Some(100)
  {
    if line != [] {
      PrefixBelowFull(line, phrase);
      if |line| > 1 {
        assert Join(line, " ") == line[0] + " " + Join(line[1..], " ");
        ContainsInTail(line[0] + " ", Join(line[1..], " "), Join(phrase, " "));
        FirstScoreBelowFull(line[1..], phrase);
      } else {
        assert line[1..] == [];
      }
    }
  }

  lemma ContainsInTail(head: string, tail: string, part: string)
    ensures Contains(tail, part) ==> Contains(head + tail, part)
  {
    if Contains(tail, part) {
      var i :| 0 <= i <= |tail| && part <= tail[i..];
      assert (head + tail)[|head| + i..] == tail[i..];
    }
  }

  /** Full confidence means containment of the normalized texts: the full score of the scorer is never reached. */
  lemma FullConfidenceIffContained(line: string, phrase: string)
    ensures PhraseConfidence(line, phrase) == Some(100)
            <==> Normalized(line) != "" && Normalized(phrase) != "" && Contains(Normalized(line), Normalized(phrase))
  {
    NormalizedWordsFacts(line);
    NormalizedWordsFacts(phrase);
    if Normalized(line) != "" && Normalized(phrase) != "" && !Contains(Normalized(line), Normalized(phrase)) {
      FirstScoreBelowFull(NormalizedWords(line), NormalizedWords(phrase));
    }
  }

  // ---- cut-off phrases ---------------------------------------------------------------

  /** The first words of the phrase, the last of them possibly cut off. */
  predicate IsCutOff(cut: seq<string>, phrase: seq<string>) {
    && 0 < |cut| <= |phrase|
    && cut[..|cut| - 1] == phrase[..|cut| - 1]
    && cut[|cut| - 1] <= phrase[|cut| - 1] && cut[|cut| - 1] != ""
  }

  lemma {:induction false} FollowOfCutOff(cut: seq<string>, phrase: seq<string>)
    requires IsCutOff(cut, phrase)
    ensures var f := FollowPhrase(cut, phrase); f.Follow? && f.matched == |cut| && f.consumed == TotalLength(cut)
  {
    if |cut| == 1 {
      assert cut[1..] == [];
      assert TotalLength(cut) == Utf8.ByteLength(cut[0]);
    } else {
      assert cut[0] == cut[..|cut| - 1][0] && phrase[0] == phrase[..|cut| - 1][0];
      assert cut[1..][..|cut| - 2] == cut[..|cut| - 1][1..];
      assert phrase[1..][..|cut| - 2] == phrase[..|cut| - 1][1..];
      FollowOfCutOff(cut[1..], phrase[1..]);
    }
  }

  /** Enough of the phrase is left: two words and 45 percent of its characters. */
  predicate Recognizable(cut: seq<string>, phrase: seq<string>) {
    IsCutOff(cut, phrase) && |cut| >= 2 && 100 * TotalLength(cut) >= 45 * TotalLength(phrase)
  }

  lemma RecognizableScores(cut: seq<string>, phrase: seq<string>)
    requires Recognizable(cut, phrase)
    ensures PrefixScore(cut, phrase) >= 84
  {
    FollowOfCutOff(cut, phrase);
  }

  /** A single word that is cut off and has a quarter of the characters of the phrase. */
  predicate WeakMatch(line: seq<string>, phrase: seq<string>) {
    && line != [] && phrase != []
    && line[0] != phrase[0] && line[0] <= phrase[0] && line[0] != ""
    && 100 * Utf8.ByteLength(line[0]) >= 25 * TotalLength(phrase)
  }

  /** A position scores nothing, 45 for a weak match, or at least 84. */
  lemma ScoreClasses(line: seq<string>, phrase: seq<string>)
    requires |line| >= 2 && |phrase| >= 2
    ensures PrefixScore(line, phrase) == 45 <==> WeakMatch(line, phrase)
    ensures PrefixScore(line, phrase) == 0 || PrefixScore(line, phrase) == 45 || PrefixScore(line, phrase) >= 84
  {
    var rest := FollowPhrase(line[1..], phrase[1..]);
    assert line[0] == phrase[0] && rest.Follow? ==> rest.matched >= 1 by {
      assert line[1..] != [] && phrase[1..] != [];
    }
  }

  /** The weak match at position `i` is the first position that scores at all. */
  predicate HiddenAt(i: nat, before: seq<string>, cut: seq<string>, phrase: seq<string>)
    requires i < |before|
  {
    && WeakMatch(before[i..] + cut, phrase)
    && forall j :: 0 <= j < i ==> PrefixScore(before[j..] + cut, phrase) == 0
  }

  predicate Hidden(before: seq<string>, cut: seq<string>, phrase: seq<string>) {
    exists i :: 0 <= i < |before| && HiddenAt(i, before, cut, phrase)
  }

  lemma HiddenStep(before: seq<string>, cut: seq<string>, phrase: seq<string>)
    requires before != []
    ensures PrefixScore(before + cut, phrase) == 0 && !WeakMatch(before + cut, phrase) ==>
              (Hidden(before, cut, phrase) <==> Hidden(before[1..], cut, phrase))
    ensures PrefixScore(before + cut, phrase) > 0 ==>
              (Hidden(before, cut, phrase) <==> WeakMatch(before + cut, phrase))
  {
    assert before[0..] == before;
    assert forall k :: 0 <= k < |before| - 1 ==> before[1..][k..] == before[k + 1..];
    if i :| 0 <= i < |before| && HiddenAt(i, before, cut, phrase) {
      if i > 0 {
        assert PrefixScore(before[0..] + cut, phrase) == 0;
        HiddenShift(i - 1, before, cut, phrase);
      }
    }
    if WeakMatch(before + cut, phrase) {
      assert HiddenAt(0, before, cut, phrase);
    }
    if PrefixScore(before + cut, phrase) == 0 {
      if k :| 0 <= k < |before[1..]| && HiddenAt(k, before[1..], cut, phrase) {
        HiddenShift(k, before, cut, phrase);
      }
    }
  }

  lemma HiddenShift(k: nat, before: seq<string>, cut: seq<string>, phrase: seq<string>)
    requires k + 1 < |before|
    ensures HiddenAt(k + 1, before, cut, phrase)
            <==> PrefixScore(before + cut, phrase) == 0 && HiddenAt(k, before[1..], cut, phrase)
  {
    assert before[0..] == before;
    assert forall j :: 0 <= j <= k ==> before[1..][j..] == before[j + 1..];
    if PrefixScore(before + cut, phrase) == 0 && HiddenAt(k, before[1..], cut, phrase) {
      forall j | 0 <= j < k + 1
        ensures PrefixScore(before[j..] + cut, phrase) == 0
      {
        if j > 0 {
          assert before[1..][j - 1..] == before[j..];
        }
      }
    }
  }

  /** The scan finds something, and something good exactly when no weak match comes first. */
  lemma {:induction false} FirstScoreIff(before: seq<string>, cut: seq<string>, phrase: seq<string>)
    requires Recognizable(cut, phrase)
    ensures FirstScore(before + cut, phrase).Some?
    ensures FirstScore(before + cut, phrase).value >= 84 <==> !Hidden(before, cut, phrase)
  {
    if before == [] {
      assert before + cut == cut;
      RecognizableScores(cut, phrase);
    } else {
      assert (before + cut)[1..] == before[1..] + cut;
      FirstScoreIff(before[1..], cut, phrase);
      HiddenStep(before, cut, phrase);
      ScoreClasses(before + cut, phrase);
    }
  }

  /**
   A line that ends in a recognizable part of the phrase is never missed.  It scores
   at least 84 exactly when the whole phrase is on the line, or no single cut-off word
   is the first position that scores.
   */
  lemma CutOffPhraseFound(line: string, phrase: string, before: seq<string>, cut: seq<string>)
    requires NormalizedWords(line) == before + cut
    requires Recognizable(cut, NormalizedWords(phrase))
    ensures PhraseConfidence(line, phrase).Some?
    ensures PhraseConfidence(line, phrase).value >= 84
            <==> || Contains(Normalized(line), Normalized(phrase))
                 || !Hidden(before, cut, NormalizedWords(phrase))
  {
    NormalizedWordsFacts(line);
    NormalizedWordsFacts(phrase);
    FirstScoreIff(before, cut, NormalizedWords(phrase));
  }

  /** An earlier, weaker match hides a later, better one: the search stops at the first position that scores. */
  lemma EarlierMatchHidesBetter()
    ensures var line, phrase := ["start", "starting", "mc"], ["starting", "mcp"];
            FirstScore(line, phrase) == Some(45) && PrefixScore(line[1..], phrase) == 84
  {
    var line, phrase := ["start", "starting", "mc"], ["starting", "mcp"];
    AsciiLength("start");
    AsciiLength("starting");
    AsciiLength("mc");
    AsciiLength("mcp");
    assert phrase[1..] == ["mcp"] && ["mcp"][1..] == [];
    assert TotalLength(["mcp"]) == 3 && TotalLength(phrase) == 11;
    assert "starting"[..5] == "start" && "mcp"[..2] == "mc";
    assert FollowPhrase(line, phrase) == Follow(1, 5, true);
    assert line[1..] == ["starting", "mc"] && line[1..][1..] == ["mc"];
    assert FollowPhrase(["mc"], ["mcp"]) == Follow(1, 2, true);
    assert FollowPhrase(line[1..], phrase) == Follow(2, 10, true);
  }

  lemma {:induction false} AsciiLength(s: string)
    requires forall i :: 0 <= i < |s| ==> s[i] as int < 0x80
    ensures Utf8.ByteLength(s) == |s|
  {
    if s != "" {
      AsciiLength(s[1..]);
    }
  }

  // ---- the Codex screen --------------------------------------------------------------

  datatype Verdict = AgentIdle | AgentWorking | ContextExhausted | Unknown

  /** `confidence` in percent. */
  datatype Classification = Classification(verdict: Verdict, confidence: nat)

  const MIN_CONFIDENCE: nat := 75
  const WORKING_PHRASES := ["esc to interrupt", "starting mcp", "executing"]
  const PROMPT: char := '\U{203A}'

  function MaxOption(a: Option<nat>, b: Option<nat>): Option<nat> {
    match (a, b)
    case (Some(x), Some(y)) => Some(if x >= y then x else y)
    case (Some(_), None) => a
    case _ => b
  }

  function BestConfidence(line: string, phrases: seq<string>): Option<nat> {
    if phrases == [] then None
    else MaxOption(PhraseConfidence(line, phrases[0]), BestConfidence(line, phrases[1..]))
  }

  function NonBlank(lines: seq<string>): seq<string> {
    if lines == [] then [] else (if Trim(lines[0]) == "" then [] else [lines[0]]) + NonBlank(lines[1..])
  }

  /** The last twelve lines that are not blank, the last one first. */
  function Recent(content: string): seq<string> {
    var lines := NonBlank(Reversed(Lines(content)));
    if |lines| <= 12 then lines else lines[..12]
  }

  /** The first line that `indicator` finds decides. */
  function Working(lines: seq<string>, indicator: string -> Option<nat>): Option<Classification> {
    if lines == [] then None
    else match indicator(lines[0])
      case Some(c) => Some(Classification(AgentWorking, if c >= MIN_CONFIDENCE then c else 45))
      case None => Working(lines[1..], indicator)
  }

  function WorkingIndicator(line: string): Option<nat> {
    BestConfidence(line, WORKING_PHRASES)
  }

  function Idle(lines: seq<string>): Option<Classification> {
    if lines == [] then None
    else
      var trimmed := Trim(lines[0]);
      if trimmed != "" && trimmed[0] == PROMPT then
        Some(Classification(AgentIdle, if Trim(trimmed[1..]) == "" then 100 else 92))
      else Idle(lines[1..])
  }

  function ClassifyCodex(content: string): Classification {
    var recent := Recent(content);
    match Working(recent, WorkingIndicator)
    case Some(c) => c
    case None =>
      match Idle(recent)
      case Some(c) => c
      case None => Classification(Unknown, 0)
  }

  lemma {:induction false} BestConfidenceFound(line: string, phrases: seq<string>, k: nat)
    requires k < |phrases| && PhraseConfidence(line, phrases[k]).Some?
    ensures BestConfidence(line, phrases).Some?
    ensures BestConfidence(line, phrases).value >= PhraseConfidence(line, phrases[k]).value
  {
    if k > 0 {
      BestConfidenceFound(line, phrases[1..], k - 1);
    }
  }

  lemma {:induction false} WorkingFound(lines: seq<string>, i: nat, indicator: string -> Option<nat>)
    requires i < |lines| && indicator(lines[i]).Some?
    ensures Working(lines, indicator).Some? && Working(lines, indicator).value.verdict == AgentWorking
  {
    if indicator(lines[0]).None? {
      WorkingFound(lines[1..], i - 1, indicator);
    }
  }

  predicate ShowsPrompt(line: string) {
    Trim(line) != "" && Trim(line)[0] == PROMPT
  }

  lemma {:induction false} WorkingIff(lines: seq<string>, indicator: string -> Option<nat>)
    ensures Working(lines, indicator).Some? <==> exists i :: 0 <= i < |lines| && indicator(lines[i]).Some?
    ensures Working(lines, indicator).Some? ==> Working(lines, indicator).value.verdict == AgentWorking
  {
    if lines != [] {
      WorkingIff(lines[1..], indicator);
      assert forall i :: 0 <= i < |lines| - 1 ==> lines[1..][i] == lines[i + 1];
      if Working(lines, indicator).Some? && indicator(lines[0]).None? {
        var i :| 0 <= i < |lines[1..]| && indicator(lines[1..][i]).Some?;
        assert indicator(lines[i + 1]).Some?;
      }
      if i :| 0 < i < |lines| && indicator(lines[i]).Some? {
        assert lines[1..][i - 1] == lines[i];
      }
    }
  }

  lemma {:induction false} IdleIff(lines: seq<string>)
    ensures Idle(lines).Some? <==> exists i :: 0 <= i < |lines| && ShowsPrompt(lines[i])
    ensures Idle(lines).Some? ==> Idle(lines).value.verdict == AgentIdle && Idle(lines).value.confidence >= 92
  {
    if lines != [] {
      IdleIff(lines[1..]);
      if Idle(lines).Some? && !ShowsPrompt(lines[0]) {
        var i :| 0 <= i < |lines[1..]| && ShowsPrompt(lines[1..][i]);
        assert ShowsPrompt(lines[i + 1]);
      }
      if i :| 0 < i < |lines| && ShowsPrompt(lines[i]) {
        assert lines[1..][i - 1] == lines[i];
      }
    }
  }

  /** Precedence: any sign of work beats every prompt; idle needs a prompt and no sign of work on any recent line. */
  lemma CodexVerdictIff(content: string)
    ensures var recent := Recent(content); var verdict := ClassifyCodex(content).verdict;
            && (verdict == AgentWorking <==> exists i :: 0 <= i < |recent| && WorkingIndicator(recent[i]).Some?)
            && (verdict == AgentIdle <==> verdict != AgentWorking
                                          && exists i :: 0 <= i < |recent| && ShowsPrompt(recent[i]))
  {
    WorkingIff(Recent(content), WorkingIndicator);
    IdleIff(Recent(content));
  }

  /** Line `i` is the first one, the most recent, with any sign of work. */
  ghost predicate IsFirstSign(i: nat, lines: seq<string>, indicator: string -> Option<nat>) {
    && i < |lines| && indicator(lines[i]).Some?
    && forall j :: 0 <= j < i ==> indicator(lines[j]).None?
  }

  lemma {:induction false} FirstSignDecides(lines: seq<string>, indicator: string -> Option<nat>, i: nat)
    requires IsFirstSign(i, lines, indicator)
    ensures Working(lines, indicator).Some?
    ensures Working(lines, indicator).value.confidence >= MIN_CONFIDENCE
            <==> indicator(lines[i]).value >= MIN_CONFIDENCE
  {
    if i > 0 {
      FirstSignDecides(lines[1..], indicator, i - 1);
    }
  }

  /** `classify_with_confidence` of a Codex screen; `exhausted` says that an exhaustion message is on it. */
  function ClassifyScreen(content: string, exhausted: bool): Classification {
    if Trim(content) == "" then Classification(Unknown, 0)
    else if exhausted then Classification(ContextExhausted, 100)
    else ClassifyCodex(content)
  }

  /** `classify`: too little confidence counts as not knowing. */
  function ScreenVerdict(content: string, exhausted: bool): Verdict {
    var c := ClassifyScreen(content, exhausted);
    if c.confidence >= MIN_CONFIDENCE then c.verdict else Unknown
  }

  /** The verdict is idle exactly on a prompt without any sign of work, however weak. */
  lemma IdleVerdictIff(content: string, exhausted: bool)
    ensures ScreenVerdict(content, exhausted) == AgentIdle <==>
            && Trim(content) != "" && !exhausted
            && (forall i :: 0 <= i < |Recent(content)| ==> WorkingIndicator(Recent(content)[i]).None?)
            && (exists i :: 0 <= i < |Recent(content)| && ShowsPrompt(Recent(content)[i]))
  {
    WorkingIff(Recent(content), WorkingIndicator);
    IdleIff(Recent(content));
  }

  /** The most recent sign of work alone decides: a weak one hides every stronger one further up. */
  lemma WorkingVerdictIff(content: string, exhausted: bool, i: nat)
    requires Trim(content) != "" && !exhausted && IsFirstSign(i, Recent(content), WorkingIndicator)
    ensures ScreenVerdict(content, exhausted)
            == if WorkingIndicator(Recent(content)[i]).value >= MIN_CONFIDENCE then AgentWorking else Unknown
  {
    FirstSignDecides(Recent(content), WorkingIndicator, i);
    WorkingIff(Recent(content), WorkingIndicator);
  }

  /** While a recent line ends in a recognizable part of a working phrase, the agent is never taken to be idle. */
  lemma CutOffIndicatorIsWorking(content: string, i: nat, k: nat, before: seq<string>, cut: seq<string>)
    requires i < |Recent(content)| && k < |WORKING_PHRASES|
    requires NormalizedWords(Recent(content)[i]) == before + cut
    requires Recognizable(cut, NormalizedWords(WORKING_PHRASES[k]))
    ensures ClassifyCodex(content).verdict == AgentWorking
  {
    var line := Recent(content)[i];
    CutOffPhraseFound(line, WORKING_PHRASES[k], before, cut);
    BestConfidenceFound(line, WORKING_PHRASES, k);
    WorkingFound(Recent(content), i, WorkingIndicator);
  }
}
