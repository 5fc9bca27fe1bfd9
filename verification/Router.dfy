/** Routing of a message to a registered project by scored evidence. */
module Router {
  import opened Common
  import opened Text
  import opened Sorting
  import opened Registry
  import opened Routing

  datatype Request = Request(message: string, channel: Option<string>, binding: Option<string>, thread: Option<string>)

  // ---- tokens ------------------------------------------------------------------

  predicate IsTokenChar(c: char) {
    'a' <= c <= 'z' || 'A' <= c <= 'Z' || '0' <= c <= '9' || c == '-' || c == '_' || c == '.'
  }

  /** The tokens of `s`, the first of which continues `current`. */
  function TokensFrom(current: string, s: string): seq<string>
    decreases |s|
  {
    if s == "" then (if current == "" then [] else [current])
    else if IsTokenChar(s[0]) then TokensFrom(current + [s[0]], s[1..])
    else (if current == "" then [] else [current]) + TokensFrom("", s[1..])
  }

  function Tokens(s: string): seq<string> {
    TokensFrom("", s)
  }

  /** `t` stands in `s` from position `i` on, and is not part of a longer run of token characters. */
  predicate IsRunAt(s: string, t: string, i: nat) {
    && t != "" && i + |t| <= |s| && s[i..i + |t|] == t
    && (forall k :: 0 <= k < |t| ==> IsTokenChar(t[k]))
    && (i > 0 ==> !IsTokenChar(s[i - 1]))
    && (i + |t| < |s| ==> !IsTokenChar(s[i + |t|]))
  }

  predicate AllTokenChars(s: string) {
    forall k :: 0 <= k < |s| ==> IsTokenChar(s[k])
  }

  predicate HasRun(s: string, t: string) {
    exists i :: 0 <= i <= |s| && IsRunAt(s, t, i)
  }

  /** A string of token characters has one run, itself. */
  lemma RunOfTokenChars(s: string, t: string)
    requires AllTokenChars(s)
    ensures HasRun(s, t) <==> s != "" && t == s
  {
    if s != "" {
      assert IsRunAt(s, s, 0);
    }
  }

  lemma RunStaysLeft(a: string, c: char, b: string, t: string, i: nat)
    requires !IsTokenChar(c) && i <= |a|
    ensures IsRunAt(a + [c] + b, t, i) <==> IsRunAt(a, t, i)
  {
    var s := a + [c] + b;
    assert s[|a|] == c;
    if i + |t| <= |a| {
      assert s[i..i + |t|] == a[i..i + |t|];
    } else if i + |t| <= |s| && s[i..i + |t|] == t {
      assert t[|a| - i] == s[i..i + |t|][|a| - i];
    }
  }

  lemma RunStaysRight(a: string, c: char, b: string, t: string, j: nat)
    requires !IsTokenChar(c) && j <= |b|
    ensures IsRunAt(a + [c] + b, t, |a| + 1 + j) <==> IsRunAt(b, t, j)
  {
  }

  /** A character that is no token character separates the runs before it from those after it. */
  lemma RunsAroundSeparator(a: string, c: char, b: string, t: string)
    requires !IsTokenChar(c)
    ensures HasRun(a + [c] + b, t) <==> HasRun(a, t) || HasRun(b, t)
  {
    var s := a + [c] + b;
    if HasRun(s, t) {
      var i :| 0 <= i <= |s| && IsRunAt(s, t, i);
      if i <= |a| {
        RunStaysLeft(a, c, b, t, i);
      } else {
        RunStaysRight(a, c, b, t, i - |a| - 1);
      }
    }
    if HasRun(a, t) {
      var i :| 0 <= i <= |a| && IsRunAt(a, t, i);
      RunStaysLeft(a, c, b, t, i);
    }
    if HasRun(b, t) {
      var j :| 0 <= j <= |b| && IsRunAt(b, t, j);
      RunStaysRight(a, c, b, t, j);
    }
  }

  lemma {:induction false} TokensFromAreRuns(current: string, s: string, t: string)
    requires AllTokenChars(current)
    ensures t in TokensFrom(current, s) <==> HasRun(current + s, t)
    decreases |s|
  {
    if s == "" {
      RunOfTokenChars(current, t);
      assert current + s == current;
    } else if IsTokenChar(s[0]) {
      assert current + [s[0]] + s[1..] == current + s;
      TokensFromAreRuns(current + [s[0]], s[1..], t);
    } else {
      assert current + s == current + [s[0]] + s[1..];
      RunsAroundSeparator(current, s[0], s[1..], t);
      RunOfTokenChars(current, t);
      TokensFromAreRuns("", s[1..], t);
      assert "" + s[1..] == s[1..];
    }
  }

  /** The tokens are exactly the maximal runs of token characters. */
  lemma TokensAreMaximalRuns(s: string, t: string)
    ensures t in Tokens(s) <==> HasRun(s, t)
  {
    TokensFromAreRuns("", s, t);
    assert "" + s == s;
  }

  method NormalizedTokens(s: string) returns (tokens: seq<string>)
    ensures tokens == Tokens(s)
  {
    var current := "";
    tokens := [];
    for i := 0 to |s|
      invariant tokens + TokensFrom(current, s[i..]) == Tokens(s)
    {
      var c := s[i];
      assert s[i..][0] == c && s[i..][1..] == s[i + 1..];
      if IsTokenChar(c) {
        current := current + [c];
      } else if current != "" {
        ghost var rest := TokensFrom("", s[i + 1..]);
        ConcatAssociative(tokens, [current], rest);
        tokens := tokens + [current];
        current := "";
      }
    }
    if current != "" {
      tokens := tokens + [current];
    }
  }

  // ---- evidence ------------------------------------------------------------------

  predicate AliasMentioned(p: Project, tokens: seq<string>) {
    exists a :: a in p.aliases && a in tokens
  }

  predicate NameMentioned(p: Project, message: string) {
    ToAsciiLowercase(p.name) != "" && Contains(message, ToAsciiLowercase(p.name))
  }

  function MentionedTags(tags: seq<string>, tokens: seq<string>): seq<string> {
    if tags == [] then []
    else (if tags[0] in tokens then [tags[0]] else []) + MentionedTags(tags[1..], tokens)
  }

  predicate ThreadMatch(p: Project, r: Request) {
    && r.channel.Some? && r.binding.Some? && r.thread.Some?
    && Binding(r.channel.value, r.binding.value, r.thread) in p.bindings
  }

  predicate ChannelMatch(p: Project, r: Request) {
    r.channel.Some? && r.binding.Some? && Binding(r.channel.value, r.binding.value, None) in p.bindings
  }

  /** The first selection of the project, whether or not its scope fits. */
  function FirstSelection(ss: seq<Selection>, id: string): Option<Selection> {
    if ss == [] then None else if ss[0].id == id then Some(ss[0]) else FirstSelection(ss[1..], id)
  }

  function SelectionMatch(p: Project, ss: seq<Selection>, r: Request): Option<(nat, string)> {
    match FirstSelection(ss, p.id)
    case None => None
    case Some(s) =>
      match s.scope
      case Thread(channel, binding, thread) =>
        if r.channel == Some(channel) && r.binding == Some(binding) && r.thread == Some(thread)
        then Some((96, THREAD_SELECTION)) else None
      case Channel(channel, binding) =>
        if r.channel == Some(channel) && r.binding == Some(binding)
        then Some((80, CHANNEL_SELECTION)) else None
      case Global => Some((65, GLOBAL_SELECTION))
  }

  const ID_TEXT := "explicit projectId mention"
  const ALIAS_TEXT := "explicit alias mention"
  const NAME_TEXT := Phrase(["project", "name", "mention"])
  const THREAD_TEXT := "thread binding match"
  const CHANNEL_TEXT := Phrase(["channel", "binding", "match"])

  const THREAD_SELECTION := Phrase(["active", "project", "selected", "for", "this", "thread"])
  const CHANNEL_SELECTION := Phrase(["active", "project", "selected", "for", "this", "channel"])
  const GLOBAL_SELECTION := Phrase(["global", "active", "project", "selection"])

  /** Words with single spaces between them. */
  function Phrase(words: seq<string>): string {
    Join(words, " ")
  }

  function TagText(tags: seq<string>): string {
    "tag match (" + Join(tags, ", ") + ")"
  }

  /** The outcome of each test that `score_project` makes. */
  datatype Findings = Findings(id: bool, alias: bool, name: bool, tags: seq<string>, thread: bool, channel: bool,
                               active: Option<(nat, string)>)

  function FindingsOf(p: Project, ss: seq<Selection>, r: Request): Findings {
    var message := ToAsciiLowercase(r.message);
    var tokens := Tokens(message);
    Findings(p.id in tokens, AliasMentioned(p, tokens), NameMentioned(p, message), MentionedTags(p.tags, tokens),
             ThreadMatch(p, r), ChannelMatch(p, r), SelectionMatch(p, ss, r))
  }

  function When(condition: bool, score: nat, reason: string): seq<(nat, string)> {
    if condition then [(score, reason)] else []
  }

  /** Everything that speaks for the project, each with its score and reason, in the order it is looked at. */
  function Contributions(f: Findings): seq<(nat, string)> {
    var (s, text) := if f.active.Some? then f.active.value else (0, "");
    When(f.id, 100, ID_TEXT) + When(f.alias, 98, ALIAS_TEXT) + When(f.name, 95, NAME_TEXT)
    + When(f.tags != [], 70, TagText(f.tags)) + When(f.thread, 100, THREAD_TEXT)
    + When(!f.thread && f.channel, 90, CHANNEL_TEXT) + When(f.active.Some?, s, text)
  }

  function Best(cs: seq<(nat, string)>): nat {
    if cs == [] then 0 else if cs[0].0 > Best(cs[1..]) then cs[0].0 else Best(cs[1..])
  }

  function Texts(cs: seq<(nat, string)>): seq<string> {
    if cs == [] then [] else [cs[0].1] + Texts(cs[1..])
  }

  datatype Candidate = Candidate(id: string, reason: string, score: nat)

  function ScoreProject(p: Project, ss: seq<Selection>, r: Request): Option<Candidate> {
    var cs := Contributions(FindingsOf(p, ss, r));
    if Best(cs) == 0 then None else Some(Candidate(p.id, Join(Texts(cs), "; "), Best(cs)))
  }

  lemma {:induction false} BestOfConcat(a: seq<(nat, string)>, b: seq<(nat, string)>)
    ensures Best(a + b) == if Best(a) > Best(b) then Best(a) else Best(b)
    ensures Texts(a + b) == Texts(a) + Texts(b)
  {
    if a == [] {
      assert a + b == b;
    } else {
      assert (a + b)[1..] == a[1..] + b;
      BestOfConcat(a[1..], b);
    }
  }

  /** The accumulation of score and reasons, test by test. */
  method ScoreWithReasons(p: Project, ss: seq<Selection>, r: Request) returns (c: Option<Candidate>)
    ensures c == ScoreProject(p, ss, r)
  {
    var message := ToAsciiLowercase(r.message);
    var tokens := NormalizedTokens(message);
    var tags := MentionedTags(p.tags, tokens);
    var active := SelectionMatch(p, ss, r);
    var f := Findings(p.id in tokens, AliasMentioned(p, tokens), NameMentioned(p, message), tags,
                      ThreadMatch(p, r), ChannelMatch(p, r), active);
    var score, reasons := Accumulate(f);
    if score == 0 {
      return None;
    }
    return Some(Candidate(p.id, Join(reasons, "; "), score));
  }

  method Accumulate(f: Findings) returns (score: nat, reasons: seq<string>)
    ensures score == Best(Contributions(f)) && reasons == Texts(Contributions(f))
  {
    ghost var done: seq<(nat, string)>;
    score, reasons, done := AccumulateMentions(f);
    score, reasons, done := Note(score, reasons, done, f.thread, 100, THREAD_TEXT);
    score, reasons, done := Note(score, reasons, done, !f.thread && f.channel, 90, CHANNEL_TEXT);
    var (s, text) := if f.active.Some? then f.active.value else (0, "");
    score, reasons, done := Note(score, reasons, done, f.active.Some?, s, text);
  }

  /** The four tests on what the message mentions. */
  method AccumulateMentions(f: Findings) returns (score: nat, reasons: seq<string>, ghost done: seq<(nat, string)>)
    ensures done == When(f.id, 100, ID_TEXT) + When(f.alias, 98, ALIAS_TEXT) + When(f.name, 95, NAME_TEXT)
                    + When(f.tags != [], 70, TagText(f.tags))
    ensures score == Best(done) && reasons == Texts(done)
  {
    score, reasons, done := 0, [], [];
    score, reasons, done := Note(score, reasons, done, f.id, 100, ID_TEXT);
    assert done == When(f.id, 100, ID_TEXT);
    score, reasons, done := Note(score, reasons, done, f.alias, 98, ALIAS_TEXT);
    score, reasons, done := Note(score, reasons, done, f.name, 95, NAME_TEXT);
    score, reasons, done := Note(score, reasons, done, f.tags != [], 70, TagText(f.tags));
  }

  /** `if test { score = score.max(s); reasons.push(text) }`. */
  method Note(score: nat, reasons: seq<string>, ghost done: seq<(nat, string)>, test: bool, s: nat, text: string)
    returns (score': nat, reasons': seq<string>, ghost done': seq<(nat, string)>)
    requires score == Best(done) && reasons == Texts(done)
    ensures done' == done + When(test, s, text) && score' == Best(done') && reasons' == Texts(done')
  {
    score', reasons', done' := score, reasons, done;
    if test {
      BestOfConcat(done, [(s, text)]);
      assert [(s, text)][1..] == [];
      score' := if score > s then score else s;
      reasons' := reasons + [text];
      done' := done + [(s, text)];
    }
  }

  /** The strong evidence: the project is named, or the message comes from its thread. */
  predicate Evidence(p: Project, r: Request) {
    var tokens := Tokens(ToAsciiLowercase(r.message));
    p.id in tokens || AliasMentioned(p, tokens) || ThreadMatch(p, r)
  }

  function Max(a: nat, b: nat): nat {
    if a > b then a else b
  }

  lemma BestOfSeven(c1: seq<(nat, string)>, c2: seq<(nat, string)>, c3: seq<(nat, string)>, c4: seq<(nat, string)>,
                    c5: seq<(nat, string)>, c6: seq<(nat, string)>, c7: seq<(nat, string)>)
    ensures Best(c1 + c2 + c3 + c4 + c5 + c6 + c7) ==
              Max(Best(c1), Max(Best(c2), Max(Best(c3), Max(Best(c4), Max(Best(c5), Max(Best(c6), Best(c7)))))))
    ensures Texts(c1 + c2 + c3 + c4 + c5 + c6 + c7) ==
              Texts(c1) + Texts(c2) + Texts(c3) + Texts(c4) + Texts(c5) + Texts(c6) + Texts(c7)
  {
    BestOfConcat(c1, c2);
    BestOfConcat(c1 + c2, c3);
    BestOfConcat(c1 + c2 + c3, c4);
    BestOfConcat(c1 + c2 + c3 + c4, c5);
    BestOfConcat(c1 + c2 + c3 + c4 + c5, c6);
    BestOfConcat(c1 + c2 + c3 + c4 + c5 + c6, c7);
  }

  lemma OneContribution(test: bool, s: nat, text: string)
    ensures Best(When(test, s, text)) == if test then s else 0
    ensures Texts(When(test, s, text)) == if test then [text] else []
  {
  }

  lemma ContributionsFacts(f: Findings)
    ensures var (s, text) := if f.active.Some? then f.active.value else (0, "");
            && Best(Contributions(f)) ==
                 Max(if f.id then 100 else 0, Max(if f.alias then 98 else 0, Max(if f.name then 95 else 0,
                 Max(if f.tags != [] then 70 else 0, Max(if f.thread then 100 else 0,
                 Max(if !f.thread && f.channel then 90 else 0, if f.active.Some? then s else 0))))))
            && Texts(Contributions(f)) ==
                 (if f.id then [ID_TEXT] else []) + (if f.alias then [ALIAS_TEXT] else [])
                 + (if f.name then [NAME_TEXT] else [])
                 + (if f.tags != [] then [TagText(f.tags)] else []) + (if f.thread then [THREAD_TEXT] else [])
                 + (if !f.thread && f.channel then [CHANNEL_TEXT] else []) + (if f.active.Some? then [text] else [])
  {
    var (s, text) := if f.active.Some? then f.active.value else (0, "");
    OneContribution(f.id, 100, ID_TEXT);
    OneContribution(f.alias, 98, ALIAS_TEXT);
    OneContribution(f.name, 95, NAME_TEXT);
    OneContribution(f.tags != [], 70, TagText(f.tags));
    OneContribution(f.thread, 100, THREAD_TEXT);
    OneContribution(!f.thread && f.channel, 90, CHANNEL_TEXT);
    OneContribution(f.active.Some?, s, text);
    BestOfSeven(When(f.id, 100, ID_TEXT), When(f.alias, 98, ALIAS_TEXT), When(f.name, 95, NAME_TEXT),
                When(f.tags != [], 70, TagText(f.tags)), When(f.thread, 100, THREAD_TEXT),
                When(!f.thread && f.channel, 90, CHANNEL_TEXT), When(f.active.Some?, s, text));
  }

  lemma BestContribution(f: Findings)
    requires f.active.Some? ==> 0 < f.active.value.0 <= 96
    ensures Best(Contributions(f)) >= 98 <==> f.id || f.alias || f.thread
    ensures Best(Contributions(f)) <= 100
  {
    ContributionsFacts(f);
  }

  lemma SelectionScores(p: Project, ss: seq<Selection>, r: Request)
    ensures SelectionMatch(p, ss, r).Some? ==> SelectionMatch(p, ss, r).value.0 in {65, 80, 96}
  {
  }

  // ---- the reason text cannot fake evidence --------------------------------------

  /** The letters around the one space that each evidence text has and no other reason. */
  predicate Telltale(before: char, after: char) {
    (before == 't' && (after == 'p' || after == 'a')) || (before == 'd' && after == 'b')
  }

  /** No space in `s` stands between telltale letters. */
  predicate Clean(s: string) {
    forall i :: 0 < i < |s| - 1 && s[i] == ' ' ==> !Telltale(s[i - 1], s[i + 1])
  }

  lemma CleanParts(a: string, separator: char, b: string)
    requires Clean(a) && Clean(b) && separator in {';', ','}
    ensures Clean(a + [separator, ' '] + b)
  {
  }

  lemma {:induction false} CleanJoin(parts: seq<string>, separator: char)
    requires separator in {';', ','} && forall s :: s in parts ==> Clean(s)
    ensures Clean(Join(parts, [separator, ' ']))
  {
    if |parts| > 1 {
      CleanJoin(parts[1..], separator);
      CleanParts(parts[0], separator, Join(parts[1..], [separator, ' ']));
    }
  }

  lemma CleanWrapped(inner: string)
    requires Clean(inner)
    ensures Clean("tag match (" + inner + ")")
  {
    var head := "tag match (";
    var s := head + inner + ")";
    assert Clean(head);
    forall i | 0 < i < |s| - 1 && s[i] == ' '
      ensures !Telltale(s[i - 1], s[i + 1])
    {
      if i < |head| - 1 {
        assert s[i - 1] == head[i - 1] && s[i] == head[i] && s[i + 1] == head[i + 1];
      } else if |head| < i < |s| - 2 {
        var j := i - |head|;
        assert s[i - 1] == inner[j - 1] && s[i] == inner[j] && s[i + 1] == inner[j + 1];
      } else if i == |head| {
        assert s[i - 1] == '(';
      } else if i == |s| - 2 {
        assert s[i + 1] == ')';
      }
    }
  }

  lemma LabelsAreClean(labels: seq<string>)
    requires forall l :: l in labels ==> IsLabel(l)
    ensures forall l :: l in labels ==> Clean(l)
  {
  }

  lemma {:induction false} MentionedTagsAreTags(tags: seq<string>, tokens: seq<string>)
    ensures forall t :: t in MentionedTags(tags, tokens) ==> t in tags
  {
    if tags != [] {
      MentionedTagsAreTags(tags[1..], tokens);
    }
  }

  predicate IsWord(w: string) {
    w != "" && ' ' !in w
  }

  /** No two neighbouring words have telltale letters at the space between them. */
  predicate CleanWords(words: seq<string>) {
    && (forall i :: 0 <= i < |words| ==> IsWord(words[i]))
    && (forall i :: 0 < i < |words| ==> !Telltale(words[i - 1][|words[i - 1]| - 1], words[i][0]))
  }

  lemma CleanWithWord(w: string, s: string)
    requires IsWord(w) && Clean(s) && s != "" && s[0] != ' ' && !Telltale(w[|w| - 1], s[0])
    ensures Clean(w + " " + s)
  {
  }

  lemma {:induction false} CleanPhrase(words: seq<string>)
    requires words != [] && CleanWords(words)
    ensures Clean(Phrase(words)) && Phrase(words) != "" && Phrase(words)[0] == words[0][0] && words[0][0] != ' '
  {
    var w := words[0];
    assert w[0] in w;
    if |words| == 1 {
      assert forall i :: 0 <= i < |w| ==> w[i] in w;
    } else {
      assert CleanWords(words[1..]);
      CleanPhrase(words[1..]);
      CleanWithWord(w, Phrase(words[1..]));
    }
  }

  lemma NameTextClean()
    ensures Clean(NAME_TEXT)
  {
    CleanPhrase(["project", "name", "mention"]);
  }

  lemma ChannelTextClean()
    ensures Clean(CHANNEL_TEXT)
  {
    CleanPhrase(["channel", "binding", "match"]);
  }

  lemma ThreadSelectionClean()
    ensures Clean(THREAD_SELECTION)
  {
    CleanPhrase(["active", "project", "selected", "for", "this", "thread"]);
  }

  lemma ChannelSelectionClean()
    ensures Clean(CHANNEL_SELECTION)
  {
    CleanPhrase(["active", "project", "selected", "for", "this", "channel"]);
  }

  lemma GlobalSelectionClean()
    ensures Clean(GLOBAL_SELECTION)
  {
    CleanPhrase(["global", "active", "project", "selection"]);
  }

  lemma SelectionTextClean(p: Project, ss: seq<Selection>, r: Request)
    ensures SelectionMatch(p, ss, r).Some? ==> Clean(SelectionMatch(p, ss, r).value.1)
  {
    ThreadSelectionClean();
    ChannelSelectionClean();
    GlobalSelectionClean();
  }

  /** A text with a telltale space makes every text that contains it unclean. */
  lemma ContainsTelltale(reason: string, text: string, at: nat)
    requires at + 2 < |text| && text[at + 1] == ' ' && Telltale(text[at], text[at + 2])
    requires Contains(reason, text)
    ensures !Clean(reason)
  {
  }

  lemma CleanHasNoEvidenceText(reason: string)
    requires Clean(reason)
    ensures !Contains(reason, ID_TEXT) && !Contains(reason, ALIAS_TEXT) && !Contains(reason, THREAD_TEXT)
  {
    if Contains(reason, ID_TEXT) {
      ContainsTelltale(reason, ID_TEXT, 7);
    }
    if Contains(reason, ALIAS_TEXT) {
      ContainsTelltale(reason, ALIAS_TEXT, 7);
    }
    if Contains(reason, THREAD_TEXT) {
      ContainsTelltale(reason, THREAD_TEXT, 5);
    }
  }

  /** Without strong evidence every part of the reason is clean. */
  lemma CleanContributions(f: Findings)
    requires !f.id && !f.alias && !f.thread
    requires Clean(TagText(f.tags)) && (f.active.Some? ==> Clean(f.active.value.1))
    ensures Clean(Join(Texts(Contributions(f)), "; "))
  {
    NameTextClean();
    ChannelTextClean();
    ContributionsFacts(f);
    assert forall t :: t in Texts(Contributions(f)) ==> Clean(t);
    CleanJoin(Texts(Contributions(f)), ';');
  }

  /** Without strong evidence the reason contains none of the three evidence texts, whatever the tags are. */
  lemma ReasonCleanWithoutEvidence(p: Project, ss: seq<Selection>, r: Request)
    requires ValidProject(p) && !Evidence(p, r)
    ensures Clean(Join(Texts(Contributions(FindingsOf(p, ss, r))), "; "))
  {
    var f := FindingsOf(p, ss, r);
    MentionedTagsAreTags(p.tags, Tokens(ToAsciiLowercase(r.message)));
    LabelsAreClean(f.tags);
    CleanJoin(f.tags, ',');
    CleanWrapped(Join(f.tags, ", "));
    SelectionTextClean(p, ss, r);
    CleanContributions(f);
  }

  predicate AutoRouteAllowed(c: Candidate, control: bool) {
    if c.score >= 98 then true
    else if Contains(c.reason, THREAD_TEXT) then true
    else if control then
      Contains(c.reason, ID_TEXT) || Contains(c.reason, ALIAS_TEXT) || Contains(c.reason, THREAD_TEXT)
    else c.score >= 80
  }

  /** The tests on the reason text decide nothing that the score has not decided. */
  lemma ReasonTestsAreRedundant(p: Project, ss: seq<Selection>, r: Request, control: bool)
    requires ValidProject(p) && ScoreProject(p, ss, r).Some?
    ensures var c := ScoreProject(p, ss, r).value;
            && (c.score >= 98 <==> Evidence(p, r))
            && (AutoRouteAllowed(c, control) <==> c.score >= 98 || (!control && c.score >= 80))
            && (AutoRouteAllowed(c, true) <==> Evidence(p, r))
  {
    SelectionScores(p, ss, r);
    BestContribution(FindingsOf(p, ss, r));
    if !Evidence(p, r) {
      ReasonCleanWithoutEvidence(p, ss, r);
      CleanHasNoEvidenceText(ScoreProject(p, ss, r).value.reason);
    }
  }

  // ---- the decision --------------------------------------------------------------

  const CONTROL_WORDS := {"stop", "restart", "delete", "archive", "merge", "ship", "deploy", "kill", "pause", "resume",
                          "assign", "unregister", "register", "instruct"}

  predicate LooksLikeControlAction(message: string) {
    exists t :: t in Tokens(ToAsciiLowercase(message)) && t in CONTROL_WORDS
  }

  datatype Confidence = High | Medium | Low

  function RoutingConfidence(score: nat): Confidence {
    if score >= 95 then High else if score >= 75 then Medium else Low
  }

  datatype Explanation =
    | NoProjects
    | OnlyProject(control: bool)
    | NothingMatched
    | Ambiguous(top: Candidate)
    | ControlNeedsConfirmation(top: Candidate)
    | SelectedBecause(top: Candidate)

  datatype Decision = Decision(selected: Option<string>, requiresConfirmation: bool, confidence: Confidence,
                               explanation: Explanation, candidates: seq<Candidate>)

  function ActiveProjects(ps: seq<Project>): seq<Project> {
    if ps == [] then []
    else (if ps[0].flags.archived then [] else [ps[0]]) + ActiveProjects(ps[1..])
  }

  /** How a project is scored for one message. */
  type Scorer = Project -> Option<Candidate>

  function ScorerOf(ss: seq<Selection>, r: Request): Scorer {
    p => ScoreProject(p, ss, r)
  }

  function Candidates(ps: seq<Project>, score: Scorer): seq<Candidate> {
    if ps == [] then [] else Found(score(ps[0])) + Candidates(ps[1..], score)
  }

  function Found(c: Option<Candidate>): seq<Candidate> {
    if c.Some? then [c.value] else []
  }

  predicate CandidateLess(a: Candidate, b: Candidate) {
    a.score > b.score || (a.score == b.score && StringLess(a.id, b.id))
  }

  predicate IsAmbiguous(ranked: seq<Candidate>) {
    |ranked| > 1 && ranked[1].score + 10 >= ranked[0].score
  }

  function Decide(ranked: seq<Candidate>, control: bool): Decision {
    if ranked == [] then Decision(None, true, Low, NothingMatched, [])
    else
      var top := ranked[0];
      var ambiguous := IsAmbiguous(ranked);
      Decision(
        if ambiguous then None else Some(top.id),
        ambiguous || !AutoRouteAllowed(top, control),
        RoutingConfidence(top.score),
        if ambiguous then Ambiguous(top)
        else if control && !AutoRouteAllowed(top, true) then ControlNeedsConfirmation(top)
        else SelectedBecause(top),
        ranked)
  }

  function RouteActive(active: seq<Project>, ss: seq<Selection>, r: Request): Decision {
    var control := LooksLikeControlAction(r.message);
    if active == [] then Decision(None, true, Low, NoProjects, [])
    else if |active| == 1 then
      Decision(Some(active[0].id), control, if control then Medium else High, OnlyProject(control),
               [Candidate(active[0].id, "only registered project", 100)])
    else Decide(Sort(Candidates(active, ScorerOf(ss, r)), CandidateLess), control)
  }

  /** Routing over the two files: a broken registry is an error, broken selections count as none. */
  function Resolve(ps: seq<Project>, ss: seq<Selection>, r: Request): Result<Decision, RoutingError> {
    if !ValidRegistry(ps) then Err(BrokenFile)
    else Ok(RouteActive(ActiveProjects(ps), if ValidSelections(ss) then ss else [], r))
  }

  method ResolveProjectForMessage(ps: seq<Project>, ss: seq<Selection>, r: Request)
    returns (d: Result<Decision, RoutingError>)
    ensures d == Resolve(ps, ss, r)
  {
    var valid := ValidateRegistry(ps);
    if !valid {
      return Err(BrokenFile);
    }
    var loaded := RoutingStateFile.ValidateRoutingState(ss);
    var selections := if loaded then ss else [];
    var active := ActiveProjects(ps);
    var control := LooksLikeControlAction(r.message);
    if |active| < 2 {
      return Ok(RouteActive(active, selections, r));
    }
    var candidates := ScoreAll(active, selections, r);
    return Ok(Decide(Sort(candidates, CandidateLess), control));
  }

  method ScoreAll(ps: seq<Project>, ss: seq<Selection>, r: Request) returns (candidates: seq<Candidate>)
    ensures candidates == Candidates(ps, ScorerOf(ss, r))
  {
    candidates := [];
    for i := 0 to |ps|
      invariant candidates + Candidates(ps[i..], ScorerOf(ss, r)) == Candidates(ps, ScorerOf(ss, r))
    {
      var c := ScoreWithReasons(ps[i], ss, r);
      var found := Found(c);
      FirstCandidate(ps, i, ScorerOf(ss, r));
      ConcatAssociative(candidates, found, Candidates(ps[i + 1..], ScorerOf(ss, r)));
      candidates := candidates + found;
    }
  }

  lemma FirstCandidate(ps: seq<Project>, i: nat, score: Scorer)
    requires i < |ps|
    ensures Candidates(ps[i..], score) == Found(score(ps[i])) + Candidates(ps[i + 1..], score)
  {
  }

  // ---- facts about the candidates ------------------------------------------------

  predicate DistinctIds(ps: seq<Project>) {
    forall i, j :: 0 <= i < j < |ps| ==> ps[i].id != ps[j].id
  }

  lemma {:induction false} ActiveFacts(ps: seq<Project>)
    requires DistinctIds(ps)
    ensures forall p :: p in ActiveProjects(ps) <==> p in ps && !p.flags.archived
    ensures DistinctIds(ActiveProjects(ps))
  {
    if ps != [] {
      ActiveFacts(ps[1..]);
      var rest := ActiveProjects(ps[1..]);
      assert forall p :: p in ps <==> p == ps[0] || p in ps[1..];
      forall j | 0 <= j < |rest|
        ensures rest[j].id != ps[0].id
      {
        assert rest[j] in ps[1..];
      }
    }
  }

  /** Candidates carry the id of their project, and a score that beats nothing by more than ten. */
  ghost predicate Honest(score: Scorer) {
    forall p :: score(p).Some? ==> score(p).value.id == p.id && score(p).value.score > 10
  }

  /** Some project of the list has this candidate. */
  predicate IsCandidateOf(ps: seq<Project>, score: Scorer, c: Candidate) {
    exists p :: p in ps && score(p) == Some(c)
  }

  lemma {:induction false} CandidateFacts(ps: seq<Project>, score: Scorer, c: Candidate)
    ensures c in Candidates(ps, score) <==> IsCandidateOf(ps, score, c)
  {
    if ps != [] {
      CandidateFacts(ps[1..], score, c);
      assert forall p :: p in ps <==> p == ps[0] || p in ps[1..];
    }
  }

  predicate DistinctCandidates(cs: seq<Candidate>) {
    forall i, j :: 0 <= i < j < |cs| ==> cs[i].id != cs[j].id
  }

  lemma {:induction false} CandidatesDistinct(ps: seq<Project>, score: Scorer)
    requires DistinctIds(ps) && Honest(score)
    ensures DistinctCandidates(Candidates(ps, score))
  {
    if ps != [] {
      CandidatesDistinct(ps[1..], score);
      var rest := Candidates(ps[1..], score);
      forall j | 0 <= j < |rest|
        ensures rest[j].id != ps[0].id
      {
        CandidateFacts(ps[1..], score, rest[j]);
        var p :| p in ps[1..] && score(p) == Some(rest[j]);
        var k :| 0 <= k < |ps[1..]| && ps[1..][k] == p;
        assert ps[k + 1] == p;
      }
    }
  }

  lemma CandidateOrder()
    ensures StrictWeakOrder(CandidateLess)
  {
    StringOrder();
  }

  lemma DistinctIdsDistinguish(cs: seq<Candidate>)
    requires DistinctCandidates(cs)
    ensures Distinguishes(cs, CandidateLess)
  {
    StringOrder();
  }

  lemma ValidHasDistinctIds(ps: seq<Project>)
    requires ValidRegistry(ps)
    ensures DistinctIds(ps)
  {
  }

  // ---- the order of the registry does not matter ---------------------------------

  lemma MultiplicityTwo<T>(s: seq<T>, i: nat, j: nat)
    requires i < j < |s| && s[i] == s[j]
    ensures multiset(s)[s[i]] >= 2
  {
    assert s == s[..j] + [s[j]] + s[j + 1..];
    assert s[i] in s[..j];
  }

  lemma {:induction false} MultiplicityOne(ps: seq<Project>, p: Project)
    requires DistinctIds(ps)
    ensures multiset(ps)[p] <= 1
  {
    if ps != [] {
      var init, last := ps[..|ps| - 1], ps[|ps| - 1];
      MultiplicityOne(init, p);
      assert ps == init + [last];
      if p == last {
        assert forall i :: 0 <= i < |init| ==> init[i] != p;
        assert p !in multiset(init);
      }
    }
  }

  lemma SameElements<T>(s: seq<T>, t: seq<T>)
    requires multiset(s) == multiset(t)
    ensures forall x :: x in s <==> x in t
  {
    forall x
      ensures x in s <==> x in t
    {
      InMultiset(s, x);
      InMultiset(t, x);
    }
  }

  lemma ReorderedPairSeparate(ps: seq<Project>, qs: seq<Project>, i: nat, j: nat)
    requires DistinctIds(ps) && multiset(ps) == multiset(qs) && i < j < |qs|
    requires forall k, l :: 0 <= k < l < |ps| ==> Separate(ps[k], ps[l])
    ensures Separate(qs[i], qs[j])
  {
    SameElements(ps, qs);
    assert qs[i] in ps && qs[j] in ps;
    var k :| 0 <= k < |ps| && ps[k] == qs[i];
    var l :| 0 <= l < |ps| && ps[l] == qs[j];
    if k == l {
      MultiplicityTwo(qs, i, j);
      MultiplicityOne(ps, qs[i]);
    } else if l < k {
      SeparateSymmetric(ps[l], ps[k]);
    }
  }

  /** A reordered valid registry is valid. */
  lemma ReorderedIsValid(ps: seq<Project>, qs: seq<Project>)
    requires ValidRegistry(ps) && multiset(ps) == multiset(qs)
    ensures ValidRegistry(qs)
    ensures forall p :: p in ps <==> p in qs
  {
    ValidHasDistinctIds(ps);
    SameElements(ps, qs);
    forall i, j | 0 <= i < j < |qs|
      ensures Separate(qs[i], qs[j])
    {
      ReorderedPairSeparate(ps, qs, i, j);
    }
  }

  lemma SameActive(ps: seq<Project>, qs: seq<Project>)
    requires DistinctIds(ps) && DistinctIds(qs) && forall p :: p in ps <==> p in qs
    ensures Sort(ActiveProjects(ps), ProjectLess) == Sort(ActiveProjects(qs), ProjectLess)
    ensures |ActiveProjects(ps)| == |ActiveProjects(qs)|
    ensures |ActiveProjects(ps)| == 1 ==> ActiveProjects(ps) == ActiveProjects(qs)
  {
    ActiveFacts(ps);
    ActiveFacts(qs);
    StringOrder();
    ProjectOrder();
    SortUnique(ActiveProjects(ps), ActiveProjects(qs), ProjectLess);
    SameWhenSortedAlike(ActiveProjects(ps), ActiveProjects(qs));
  }

  lemma SameWhenSortedAlike(a: seq<Project>, b: seq<Project>)
    requires StrictWeakOrder(ProjectLess) && Sort(a, ProjectLess) == Sort(b, ProjectLess)
    ensures |a| == |b| && (|a| == 1 ==> a == b)
  {
    SortFacts(a, ProjectLess);
    SortFacts(b, ProjectLess);
    if |a| == 1 {
      assert a[0] in b;
    }
  }

  lemma SameCandidates(ps: seq<Project>, qs: seq<Project>, score: Scorer)
    requires DistinctIds(ps) && DistinctIds(qs) && Honest(score) && forall p :: p in ps <==> p in qs
    ensures Sort(Candidates(ps, score), CandidateLess) == Sort(Candidates(qs, score), CandidateLess)
  {
    var a, b := Candidates(ps, score), Candidates(qs, score);
    CandidatesDistinct(ps, score);
    CandidatesDistinct(qs, score);
    DistinctIdsDistinguish(a);
    DistinctIdsDistinguish(b);
    CandidateOrder();
    forall c
      ensures c in a <==> c in b
    {
      CandidateFacts(ps, score, c);
      CandidateFacts(qs, score, c);
    }
    SortUnique(a, b, CandidateLess);
  }

  /** The whole decision, the candidate list included, is the same for every order of the registry. */
  lemma DecisionIgnoresOrder(ps: seq<Project>, qs: seq<Project>, ss: seq<Selection>, r: Request)
    requires ValidRegistry(ps) && multiset(ps) == multiset(qs)
    ensures Resolve(ps, ss, r) == Resolve(qs, ss, r)
  {
    ReorderedIsValid(ps, qs);
    ValidHasDistinctIds(ps);
    ValidHasDistinctIds(qs);
    SameActive(ps, qs);
    ActiveFacts(ps);
    ActiveFacts(qs);
    var selections := if ValidSelections(ss) then ss else [];
    ScorerIsHonest(selections, r);
    SameCandidates(ActiveProjects(ps), ActiveProjects(qs), ScorerOf(selections, r));
  }

  // ---- selections of unregistered projects do not matter -------------------------

  /** The selections whose project is registered. */
  function Known(ss: seq<Selection>, ps: seq<Project>): seq<Selection> {
    if ss == [] then []
    else (if exists p :: p in ps && p.id == ss[0].id then [ss[0]] else []) + Known(ss[1..], ps)
  }

  lemma {:induction false} KnownKeepsFirst(ss: seq<Selection>, ps: seq<Project>, p: Project)
    requires p in ps
    ensures FirstSelection(Known(ss, ps), p.id) == FirstSelection(ss, p.id)
  {
    if ss != [] {
      KnownKeepsFirst(ss[1..], ps, p);
      assert ([ss[0]] + Known(ss[1..], ps))[1..] == Known(ss[1..], ps);
      assert [] + Known(ss[1..], ps) == Known(ss[1..], ps);
    }
  }

  lemma {:induction false} KnownFacts(ss: seq<Selection>, ps: seq<Project>)
    requires ScopesDistinct(ss)
    ensures forall s :: s in Known(ss, ps) ==> s in ss
    ensures ScopesDistinct(Known(ss, ps))
  {
    if ss != [] {
      KnownFacts(ss[1..], ps);
      var rest := Known(ss[1..], ps);
      forall j | 0 <= j < |rest|
        ensures rest[j].scope != ss[0].scope
      {
        assert rest[j] in ss[1..];
      }
    }
  }

  lemma SameScore(p: Project, ss: seq<Selection>, ts: seq<Selection>, r: Request)
    requires FirstSelection(ss, p.id) == FirstSelection(ts, p.id)
    ensures ScorerOf(ss, r)(p) == ScorerOf(ts, r)(p)
  {
    assert SelectionMatch(p, ss, r) == SelectionMatch(p, ts, r);
    assert FindingsOf(p, ss, r) == FindingsOf(p, ts, r);
  }

  lemma {:induction false} SameCandidateList(ps: seq<Project>, score: Scorer, score': Scorer)
    requires forall p :: p in ps ==> score(p) == score'(p)
    ensures Candidates(ps, score) == Candidates(ps, score')
  {
    if ps != [] {
      SameCandidateList(ps[1..], score, score');
    }
  }

  /** Deleting the selections of projects that are not registered changes no decision. */
  lemma DecisionIgnoresUnknownSelections(ps: seq<Project>, ss: seq<Selection>, r: Request)
    requires ValidSelections(ss)
    ensures Resolve(ps, Known(ss, ps), r) == Resolve(ps, ss, r)
  {
    KnownFacts(ss, ps);
    if ValidRegistry(ps) {
      ValidHasDistinctIds(ps);
      ActiveFacts(ps);
      forall p | p in ActiveProjects(ps)
        ensures ScorerOf(Known(ss, ps), r)(p) == ScorerOf(ss, r)(p)
      {
        KnownKeepsFirst(ss, ps, p);
        SameScore(p, Known(ss, ps), ss, r);
      }
      SameCandidateList(ActiveProjects(ps), ScorerOf(Known(ss, ps), r), ScorerOf(ss, r));
    }
  }

  // ---- who is selected -----------------------------------------------------------

  function Points(score: Scorer, p: Project): nat {
    if score(p).Some? then score(p).value.score else 0
  }

  /** Some evidence, and more than ten points ahead of every other project. */
  predicate ClearWinner(active: seq<Project>, score: Scorer, p: Project) {
    && p in active && score(p).Some?
    && forall q :: q in active && q.id != p.id ==> Points(score, q) + 10 < Points(score, p)
  }

  /** The ranking lists every project with evidence, the best first. */
  lemma RankingFacts(active: seq<Project>, score: Scorer)
    ensures var ranked := Sort(Candidates(active, score), CandidateLess);
            && (forall i, j :: 0 <= i < j < |ranked| ==> ranked[i].score >= ranked[j].score)
            && (forall c :: c in ranked <==> IsCandidateOf(active, score, c))
  {
    CandidateOrder();
    SortFacts(Candidates(active, score), CandidateLess);
    forall c
      ensures c in Candidates(active, score) <==> IsCandidateOf(active, score, c)
    {
      CandidateFacts(active, score, c);
    }
  }

  lemma IdOfProject(active: seq<Project>, p: Project, q: Project)
    requires DistinctIds(active) && p in active && q in active && p.id == q.id
    ensures p == q
  {
  }

  lemma SecondIsAnother(active: seq<Project>, score: Scorer)
    requires DistinctIds(active) && Honest(score)
    ensures var ranked := Sort(Candidates(active, score), CandidateLess);
            |ranked| > 1 ==> ranked[0].id != ranked[1].id
  {
    var cs := Candidates(active, score);
    CandidatesDistinct(active, score);
    DistinctIdsDistinguish(cs);
    CandidateOrder();
    SortStrict(cs, CandidateLess);
    SortFacts(cs, CandidateLess);
    var ranked := Sort(cs, CandidateLess);
    if |ranked| > 1 {
      assert ranked[0] in cs && ranked[1] in cs;
      var i :| 0 <= i < |cs| && cs[i] == ranked[0];
      var j :| 0 <= j < |cs| && cs[j] == ranked[1];
      StringOrder();
      assert CandidateLess(ranked[0], ranked[1]);
      assert i != j;
    }
  }

  /** A clear winner stands at the top of the ranking, and the ranking is not ambiguous. */
  lemma WinnerIsTop(active: seq<Project>, score: Scorer, p: Project)
    requires DistinctIds(active) && Honest(score) && ClearWinner(active, score, p)
    ensures var ranked := Sort(Candidates(active, score), CandidateLess);
            ranked != [] && Some(ranked[0]) == score(p) && !IsAmbiguous(ranked)
  {
    var ranked := Sort(Candidates(active, score), CandidateLess);
    RankingFacts(active, score);
    var c := score(p).value;
    assert IsCandidateOf(active, score, c);
    var at :| 0 <= at < |ranked| && ranked[at] == c;
    assert ranked[0] in ranked;
    var q :| q in active && score(q) == Some(ranked[0]);
    if q.id == p.id {
      IdOfProject(active, p, q);
    }
    if |ranked| > 1 {
      SecondIsAnother(active, score);
      assert ranked[1] in ranked;
      var q2 :| q2 in active && score(q2) == Some(ranked[1]);
      assert q2.id != p.id;
    }
  }

  /** The top of an unambiguous ranking is a clear winner. */
  lemma TopIsWinner(active: seq<Project>, score: Scorer) returns (p: Project)
    requires DistinctIds(active) && Honest(score)
    requires var ranked := Sort(Candidates(active, score), CandidateLess); ranked != [] && !IsAmbiguous(ranked)
    ensures ClearWinner(active, score, p)
    ensures score(p) == Some(Sort(Candidates(active, score), CandidateLess)[0])
  {
    var ranked := Sort(Candidates(active, score), CandidateLess);
    RankingFacts(active, score);
    assert ranked[0] in ranked;
    p :| p in active && score(p) == Some(ranked[0]);
    forall q | q in active && q.id != p.id
      ensures Points(score, q) + 10 < Points(score, p)
    {
      if score(q).Some? {
        var c := score(q).value;
        assert IsCandidateOf(active, score, c);
        var at :| 0 <= at < |ranked| && ranked[at] == c;
        assert at > 0;
        assert ranked[1].score >= ranked[at].score;
      }
    }
  }

  lemma ScorerIsHonest(ss: seq<Selection>, r: Request)
    ensures Honest(ScorerOf(ss, r))
  {
    forall p | ScorerOf(ss, r)(p).Some?
      ensures ScorerOf(ss, r)(p).value.id == p.id && ScorerOf(ss, r)(p).value.score > 10
    {
      ScoreIsLarge(p, ss, r);
    }
  }

  lemma ScoreIsLarge(p: Project, ss: seq<Selection>, r: Request)
    ensures ScoreProject(p, ss, r).Some? ==>
              ScoreProject(p, ss, r).value.id == p.id && ScoreProject(p, ss, r).value.score >= 65
  {
    SelectionScores(p, ss, r);
    ContributionsFacts(FindingsOf(p, ss, r));
  }

  lemma DecisionOf(ps: seq<Project>, ss: seq<Selection>, r: Request)
    requires ValidRegistry(ps) && ValidSelections(ss) && |ActiveProjects(ps)| >= 2
    ensures Resolve(ps, ss, r) ==
              Ok(Decide(Sort(Candidates(ActiveProjects(ps), ScorerOf(ss, r)), CandidateLess),
                        LooksLikeControlAction(r.message)))
    ensures DistinctIds(ActiveProjects(ps))
    ensures forall p :: p in ActiveProjects(ps) <==> p in ps && !p.flags.archived
  {
    ValidHasDistinctIds(ps);
    ActiveFacts(ps);
  }

  /** With two or more active projects, exactly the clear winner is selected; it is registered and not archived. */
  lemma SelectedIffClearWinner(ps: seq<Project>, ss: seq<Selection>, r: Request, id: string)
    requires ValidRegistry(ps) && ValidSelections(ss) && |ActiveProjects(ps)| >= 2
    ensures Resolve(ps, ss, r).value.selected == Some(id)
            <==> exists p :: ClearWinner(ActiveProjects(ps), ScorerOf(ss, r), p) && p.id == id
    ensures forall p :: ClearWinner(ActiveProjects(ps), ScorerOf(ss, r), p) ==> p in ps && !p.flags.archived
  {
    DecisionOf(ps, ss, r);
    ScorerIsHonest(ss, r);
    RankingSelects(ActiveProjects(ps), ScorerOf(ss, r), LooksLikeControlAction(r.message), id);
  }

  lemma RankingSelects(active: seq<Project>, score: Scorer, control: bool, id: string)
    requires DistinctIds(active) && Honest(score)
    ensures Decide(Sort(Candidates(active, score), CandidateLess), control).selected == Some(id)
            <==> exists p :: ClearWinner(active, score, p) && p.id == id
  {
    if exists p :: ClearWinner(active, score, p) && p.id == id {
      var p :| ClearWinner(active, score, p) && p.id == id;
      WinnerIsTop(active, score, p);
    }
    if Decide(Sort(Candidates(active, score), CandidateLess), control).selected == Some(id) {
      var p := TopIsWinner(active, score);
    }
  }

  /** Whether the winner may be routed to without asking. */
  predicate MayAutoRoute(p: Project, ss: seq<Selection>, r: Request) {
    Evidence(p, r) || (!LooksLikeControlAction(r.message) && Points(ScorerOf(ss, r), p) >= 80)
  }

  lemma WinnerConfirmation(active: seq<Project>, ss: seq<Selection>, r: Request, p: Project)
    requires DistinctIds(active) && ClearWinner(active, ScorerOf(ss, r), p) && ValidProject(p)
    ensures Decide(Sort(Candidates(active, ScorerOf(ss, r)), CandidateLess),
                   LooksLikeControlAction(r.message)).requiresConfirmation
            <==> !MayAutoRoute(p, ss, r)
  {
    ScorerIsHonest(ss, r);
    WinnerIsTop(active, ScorerOf(ss, r), p);
    ReasonTestsAreRedundant(p, ss, r, LooksLikeControlAction(r.message));
  }

  /**
   No confirmation is asked for exactly when there is a clear winner and either the
   project is named or bound to the thread, or the message is no control action and
   the score is at least 80.
   */
  lemma ConfirmationAvoidedIff(ps: seq<Project>, ss: seq<Selection>, r: Request)
    requires ValidRegistry(ps) && ValidSelections(ss) && |ActiveProjects(ps)| >= 2
    ensures !Resolve(ps, ss, r).value.requiresConfirmation
            <==> exists p :: ClearWinner(ActiveProjects(ps), ScorerOf(ss, r), p) && MayAutoRoute(p, ss, r)
  {
    var active, score := ActiveProjects(ps), ScorerOf(ss, r);
    DecisionOf(ps, ss, r);
    ScorerIsHonest(ss, r);
    if exists p :: ClearWinner(active, score, p) && MayAutoRoute(p, ss, r) {
      var p :| ClearWinner(active, score, p) && MayAutoRoute(p, ss, r);
      WinnerConfirmation(active, ss, r, p);
    }
    if !Resolve(ps, ss, r).value.requiresConfirmation {
      var p := TopIsWinner(active, score);
      WinnerConfirmation(active, ss, r, p);
    }
  }

  // ---- only the first selection counts -------------------------------------------

  lemma {:induction false} FirstSelectionFacts(ss: seq<Selection>, id: string)
    ensures match FirstSelection(ss, id)
            case None => forall s :: s in ss ==> s.id != id
            case Some(f) =>
              exists i :: && 0 <= i < |ss| && ss[i] == f && f.id == id
                          && forall j :: 0 <= j < i ==> ss[j].id != id
  {
    if ss != [] && ss[0].id != id {
      FirstSelectionFacts(ss[1..], id);
      var f := FirstSelection(ss[1..], id);
      if f.Some? {
        var i :| 0 <= i < |ss[1..]| && ss[1..][i] == f.value && forall j :: 0 <= j < i ==> ss[1..][j].id != id;
        assert ss[i + 1] == f.value;
        assert forall j :: 0 <= j < i + 1 ==> ss[j] == if j == 0 then ss[0] else ss[1..][j - 1];
      }
    }
  }

  lemma ThreadScopesComeLast(a: Selection, b: Selection)
    requires a.scope.Thread? && !b.scope.Thread?
    ensures SelectionLess(b, a)
  {
  }

  /**
   In a sorted list the thread selection of a project is looked at exactly when the
   project has no channel or global selection: those come first and hide it, even
   where they do not fit the message.
   */
  lemma ThreadSelectionHiddenIff(ss: seq<Selection>, id: string)
    requires StrictlySorted(ss, SelectionLess) && exists s :: s in ss && s.id == id
    ensures FirstSelection(ss, id).Some?
    ensures FirstSelection(ss, id).value.scope.Thread? <==> forall s :: s in ss && s.id == id ==> s.scope.Thread?
  {
    FirstSelectionFacts(ss, id);
    var f := FirstSelection(ss, id).value;
    var i :| 0 <= i < |ss| && ss[i] == f && forall j :: 0 <= j < i ==> ss[j].id != id;
    if f.scope.Thread? {
      forall s | s in ss && s.id == id
        ensures s.scope.Thread?
      {
        var k :| 0 <= k < |ss| && ss[k] == s;
        assert k >= i;
        if !s.scope.Thread? {
          ThreadScopesComeLast(f, s);
          SelectionOrder();
        }
      }
    } else {
      assert f in ss;
    }
  }
}
