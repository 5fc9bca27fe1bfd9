/** What routing answers, from the registry, the selections and the message alone. */
module RoutingOutcome {
  import opened Common
  import opened Text
  import opened Sorting
  import opened Registry
  import opened Routing
  import opened Router

  // ---- what speaks for a project ----------------------------------------------------

  /** The word is a maximal run of token characters of the lower-cased message. */
  predicate Mentions(message: string, word: string) {
    HasRun(ToAsciiLowercase(message), word)
  }

  /** Messages are cut where no label could go on: a label, in upper or lower case, is one token. */
  lemma LabelIsOneToken(word: string, spelling: string)
    requires IsLabel(word) && ToAsciiLowercase(spelling) == word
    ensures Mentions(spelling, word)
    ensures forall w :: Mentions(spelling, w) ==> w == word
  {
    forall i | 0 <= i < |word|
      ensures IsTokenChar(word[i])
    {
      assert IsLabelChar(word[i]);
    }
    forall w
      ensures Mentions(spelling, w) <==> w == word
    {
      RunOfTokenChars(word, w);
    }
  }

  lemma TokenCharIff(c: char)
    ensures IsTokenChar(c) <==> IsLabelChar(ToAsciiLower(c))
  {
  }

  ghost predicate AsksForControl(message: string) {
    exists w :: w in CONTROL_WORDS && Mentions(message, w)
  }

  predicate MentionsOneOf(message: string, words: seq<string>) {
    exists w :: w in words && Mentions(message, w)
  }

  /** The name is not empty and stands somewhere in the message, upper or lower case. */
  predicate MentionsName(message: string, name: string) {
    name != "" && exists i :: 0 <= i <= |message| && StandsAt(message, name, i)
  }

  predicate StandsAt(message: string, name: string, i: nat) {
    && i + |name| <= |message|
    && forall k :: 0 <= k < |name| ==> ToAsciiLower(message[i + k]) == ToAsciiLower(name[k])
  }

  predicate FromThreadOf(p: Project, r: Request) {
    exists b :: && b in p.bindings && b.thread.Some? && r.thread == b.thread
                && r.channel == Some(b.channel) && r.binding == Some(b.binding)
  }

  predicate FromChannelOf(p: Project, r: Request) {
    exists b :: && b in p.bindings && b.thread.None?
                && r.channel == Some(b.channel) && r.binding == Some(b.binding)
  }

  /** The first selection of the project has this scope. */
  predicate FirstSelected(ss: seq<Selection>, id: string, scope: Scope) {
    exists i :: && 0 <= i < |ss| && ss[i].id == id && ss[i].scope == scope
                && forall j :: 0 <= j < i ==> ss[j].id != id
  }

  predicate ThreadSelected(p: Project, ss: seq<Selection>, r: Request) {
    && r.channel.Some? && r.binding.Some? && r.thread.Some?
    && FirstSelected(ss, p.id, Thread(r.channel.value, r.binding.value, r.thread.value))
  }

  predicate ChannelSelected(p: Project, ss: seq<Selection>, r: Request) {
    r.channel.Some? && r.binding.Some? && FirstSelected(ss, p.id, Channel(r.channel.value, r.binding.value))
  }

  lemma ControlIff(message: string)
    ensures LooksLikeControlAction(message) <==> AsksForControl(message)
  {
    forall t
      ensures t in Tokens(ToAsciiLowercase(message)) <==> Mentions(message, t)
    {
      TokensAreMaximalRuns(ToAsciiLowercase(message), t);
    }
  }

  lemma MentionsOneOfIff(message: string, words: seq<string>)
    ensures MentionsOneOf(message, words) <==> exists w :: w in words && w in Tokens(ToAsciiLowercase(message))
  {
    forall t
      ensures t in Tokens(ToAsciiLowercase(message)) <==> Mentions(message, t)
    {
      TokensAreMaximalRuns(ToAsciiLowercase(message), t);
    }
  }

  lemma {:induction false} MentionedTagsIff(tags: seq<string>, tokens: seq<string>)
    ensures forall t :: t in MentionedTags(tags, tokens) <==> t in tags && t in tokens
    ensures MentionedTags(tags, tokens) != [] <==> exists t :: t in tags && t in tokens
  {
    if tags != [] {
      MentionedTagsIff(tags[1..], tokens);
      assert forall t :: t in tags <==> t == tags[0] || t in tags[1..];
    }
  }

  lemma NameIff(p: Project, message: string)
    ensures NameMentioned(p, ToAsciiLowercase(message)) <==> MentionsName(message, p.name)
  {
    var m, n := ToAsciiLowercase(message), ToAsciiLowercase(p.name);
    forall i | 0 <= i <= |m|
      ensures n <= m[i..] <==> StandsAt(message, p.name, i)
    {
      var tail := m[i..];
      assert forall k :: 0 <= k < |tail| ==> tail[k] == ToAsciiLower(message[i + k]);
      assert forall k :: 0 <= k < |n| ==> n[k] == ToAsciiLower(p.name[k]);
      assert n <= tail <==> |n| <= |tail| && forall k :: 0 <= k < |n| ==> n[k] == tail[k];
    }
  }

  lemma {:induction false} SelectedIff(ss: seq<Selection>, id: string, scope: Scope)
    ensures FirstSelected(ss, id, scope) <==>
              FirstSelection(ss, id).Some? && FirstSelection(ss, id).value.scope == scope
  {
    FirstSelectionFacts(ss, id);
  }

  lemma SelectionIff(p: Project, ss: seq<Selection>, r: Request)
    ensures var active := SelectionMatch(p, ss, r);
            var points := if active.Some? then active.value.0 else 0;
            && (points == 96 <==> ThreadSelected(p, ss, r))
            && (points == 80 <==> ChannelSelected(p, ss, r))
            && (points == 65 <==> FirstSelected(ss, p.id, Global))
            && (active.Some? ==> points in {96, 80, 65})
  {
    SelectedIff(ss, p.id, Global);
    if r.channel.Some? && r.binding.Some? {
      SelectedIff(ss, p.id, Channel(r.channel.value, r.binding.value));
      if r.thread.Some? {
        SelectedIff(ss, p.id, Thread(r.channel.value, r.binding.value, r.thread.value));
      }
    }
  }

  /** The outcome of each test, stated on the message, the bindings and the selections. */
  lemma FindingsIff(p: Project, ss: seq<Selection>, r: Request)
    ensures var f := FindingsOf(p, ss, r);
            && (f.id <==> Mentions(r.message, p.id))
            && (f.alias <==> MentionsOneOf(r.message, p.aliases))
            && (f.name <==> MentionsName(r.message, p.name))
            && (f.tags != [] <==> MentionsOneOf(r.message, p.tags))
            && (f.thread <==> FromThreadOf(p, r))
            && (f.channel <==> FromChannelOf(p, r))
  {
    var tokens := Tokens(ToAsciiLowercase(r.message));
    TokensAreMaximalRuns(ToAsciiLowercase(r.message), p.id);
    MentionsOneOfIff(r.message, p.aliases);
    MentionsOneOfIff(r.message, p.tags);
    MentionedTagsIff(p.tags, tokens);
    NameIff(p, r.message);
  }

  /** The score of a project is at least this. */
  predicate Reaches(p: Project, ss: seq<Selection>, r: Request, points: nat) {
    Points(ScorerOf(ss, r), p) >= points
  }

  lemma BestTable(f: Findings, s: nat)
    requires s == if f.active.Some? then f.active.value.0 else 0
    requires s in {0, 65, 80, 96}
    ensures var best := Best(Contributions(f));
            && (best >= 100 <==> f.id || f.thread)
            && (best >= 98 <==> best >= 100 || f.alias)
            && (best >= 96 <==> best >= 98 || s == 96)
            && (best >= 95 <==> best >= 96 || f.name)
            && (best >= 90 <==> best >= 95 || f.channel)
            && (best >= 80 <==> best >= 90 || s == 80)
            && (best >= 70 <==> best >= 80 || f.tags != [])
            && (best >= 65 <==> best >= 70 || s == 65)
            && best in {0, 65, 70, 80, 90, 95, 96, 98, 100}
  {
    ContributionsFacts(f);
  }

  /** The score as a table: which evidence is worth how much. */
  lemma ScoreTable(p: Project, ss: seq<Selection>, r: Request)
    ensures Reaches(p, ss, r, 100) <==> Mentions(r.message, p.id) || FromThreadOf(p, r)
    ensures Reaches(p, ss, r, 98) <==> Reaches(p, ss, r, 100) || MentionsOneOf(r.message, p.aliases)
    ensures Reaches(p, ss, r, 96) <==> Reaches(p, ss, r, 98) || ThreadSelected(p, ss, r)
    ensures Reaches(p, ss, r, 95) <==> Reaches(p, ss, r, 96) || MentionsName(r.message, p.name)
    ensures Reaches(p, ss, r, 90) <==> Reaches(p, ss, r, 95) || FromChannelOf(p, r)
    ensures Reaches(p, ss, r, 80) <==> Reaches(p, ss, r, 90) || ChannelSelected(p, ss, r)
    ensures Reaches(p, ss, r, 70) <==> Reaches(p, ss, r, 80) || MentionsOneOf(r.message, p.tags)
    ensures Reaches(p, ss, r, 65) <==> Reaches(p, ss, r, 70) || FirstSelected(ss, p.id, Global)
    ensures Points(ScorerOf(ss, r), p) in {0, 65, 70, 80, 90, 95, 96, 98, 100}
    ensures ScoreProject(p, ss, r).Some? <==> Reaches(p, ss, r, 65)
  {
    FindingsIff(p, ss, r);
    SelectionIff(p, ss, r);
    var f := FindingsOf(p, ss, r);
    BestTable(f, if f.active.Some? then f.active.value.0 else 0);
  }

  // ---- the answer ---------------------------------------------------------------------

  /** Only a broken registry is an error; broken selections count as none. */
  lemma ResolveFailsIff(ps: seq<Project>, ss: seq<Selection>, r: Request)
    ensures Resolve(ps, ss, r).Err? <==> !ValidRegistry(ps)
    ensures !ValidSelections(ss) ==> Resolve(ps, ss, r) == Resolve(ps, [], r)
  {
  }

  lemma ActiveCount(ps: seq<Project>)
    requires ValidRegistry(ps)
    ensures forall p :: p in ActiveProjects(ps) <==> p in ps && !p.flags.archived
    ensures DistinctIds(ActiveProjects(ps))
  {
    ValidHasDistinctIds(ps);
    ActiveFacts(ps);
  }

  /** Without active project nothing is selected. */
  lemma NoActiveProject(ps: seq<Project>, ss: seq<Selection>, r: Request)
    requires ValidRegistry(ps) && forall p :: p in ps ==> p.flags.archived
    ensures Resolve(ps, ss, r) == Ok(Decision(None, true, Low, NoProjects, []))
  {
    ActiveCount(ps);
    if ActiveProjects(ps) != [] {
      assert ActiveProjects(ps)[0] in ActiveProjects(ps);
      assert false;
    }
  }

  lemma SecondDiffers(ps: seq<Project>)
    requires DistinctIds(ps) && |ps| > 1
    ensures exists q :: q in ps && q != ps[0]
    ensures ps[0] in ps
  {
    assert ps[1] in ps && ps[1].id != ps[0].id;
  }

  lemma OneElement(ps: seq<Project>, p: Project)
    requires DistinctIds(ps) && p in ps && forall q :: q in ps ==> q == p
    ensures ps == [p]
  {
    if |ps| > 1 {
      SecondDiffers(ps);
    }
  }

  /** The only active project is selected whatever the message says; a control action still has to be confirmed. */
  lemma OnlyActiveProject(ps: seq<Project>, ss: seq<Selection>, r: Request, p: Project)
    requires ValidRegistry(ps) && p in ps && !p.flags.archived
    requires forall q :: q in ps && q != p ==> q.flags.archived
    ensures Resolve(ps, ss, r).Ok?
    ensures var d := Resolve(ps, ss, r).value;
            && d.selected == Some(p.id)
            && (d.requiresConfirmation <==> AsksForControl(r.message))
            && (d.confidence == if AsksForControl(r.message) then Medium else High)
            && d.explanation == OnlyProject(AsksForControl(r.message))
            && d.candidates == [Candidate(p.id, "only registered project", 100)]
  {
    ActiveCount(ps);
    OneElement(ActiveProjects(ps), p);
    ControlIff(r.message);
  }

  lemma AtLeastTwo<T>(s: seq<T>, x: T, y: T)
    requires x in s && y in s && x != y
    ensures |s| >= 2
  {
  }

  lemma TwoActiveProjects(ps: seq<Project>, p: Project, q: Project)
    requires ValidRegistry(ps) && p in ps && q in ps && p != q && !p.flags.archived && !q.flags.archived
    ensures |ActiveProjects(ps)| >= 2
  {
    ActiveCount(ps);
    AtLeastTwo(ActiveProjects(ps), p, q);
  }

  /** Two candidates, the second of them within ten points of the first. */
  predicate Close(cs: seq<Candidate>) {
    |cs| >= 2 && cs[0].score <= cs[1].score + 10
  }

  /** The candidate is the score of an active project. */
  predicate ScoredActive(ps: seq<Project>, ss: seq<Selection>, r: Request, c: Candidate) {
    exists a :: a in ps && !a.flags.archived && ScoreProject(a, ss, r) == Some(c)
  }

  lemma Ranked(ps: seq<Project>, ss: seq<Selection>, r: Request, p: Project, q: Project)
    requires ValidRegistry(ps) && ValidSelections(ss)
    requires p in ps && q in ps && p != q && !p.flags.archived && !q.flags.archived
    ensures Resolve(ps, ss, r).Ok?
    ensures var ranked := Resolve(ps, ss, r).value.candidates;
            && Resolve(ps, ss, r).value == Decide(ranked, LooksLikeControlAction(r.message))
            && StrictlySorted(ranked, CandidateLess)
            && forall c :: c in ranked <==> ScoredActive(ps, ss, r, c)
  {
    var score := ScorerOf(ss, r);
    var active := ActiveProjects(ps);
    TwoActiveProjects(ps, p, q);
    DecisionOf(ps, ss, r);
    ScorerIsHonest(ss, r);
    CandidatesDistinct(active, score);
    DistinctIdsDistinguish(Candidates(active, score));
    CandidateOrder();
    SortStrict(Candidates(active, score), CandidateLess);
    RankingFacts(active, score);
    forall c
      ensures IsCandidateOf(active, score, c) <==> ScoredActive(ps, ss, r, c)
    {
    }
  }

  lemma TopIsScored(ps: seq<Project>, ss: seq<Selection>, r: Request, top: Candidate)
    requires ValidRegistry(ps)
    requires ScoredActive(ps, ss, r, top)
    ensures AutoRouteAllowed(top, true) <==> top.score >= 98
    ensures AutoRouteAllowed(top, false) <==> top.score >= 80
  {
    var a :| a in ps && !a.flags.archived && ScoreProject(a, ss, r) == Some(top);
    ReasonTestsAreRedundant(a, ss, r, true);
    ReasonTestsAreRedundant(a, ss, r, false);
  }

  /**
   With two or more active projects: the candidates are the scored active projects in
   order, and the first two of them and the words of the message decide everything.
   */
  lemma SeveralActiveProjects(ps: seq<Project>, ss: seq<Selection>, r: Request, p: Project, q: Project)
    requires ValidRegistry(ps) && ValidSelections(ss)
    requires p in ps && q in ps && p != q && !p.flags.archived && !q.flags.archived
    ensures Resolve(ps, ss, r).Ok?
    ensures var d := Resolve(ps, ss, r).value;
            && StrictlySorted(d.candidates, CandidateLess)
            && (forall c :: c in d.candidates <==> ScoredActive(ps, ss, r, c))
            && (d.candidates == [] ==> d == Decision(None, true, Low, NothingMatched, []))
            && (d.candidates != [] ==>
                  var top := d.candidates[0];
                  var needed := if AsksForControl(r.message) then 98 else 80;
                  && (d.selected == if Close(d.candidates) then None else Some(top.id))
                  && (d.requiresConfirmation <==> Close(d.candidates) || top.score < needed)
                  && (d.confidence == High <==> top.score >= 95) && (d.confidence == Low <==> top.score < 75)
                  && (d.explanation == Ambiguous(top) <==> Close(d.candidates))
                  && (d.explanation == ControlNeedsConfirmation(top) <==>
                        !Close(d.candidates) && AsksForControl(r.message) && top.score < 98)
                  && (d.explanation == SelectedBecause(top) <==>
                        !Close(d.candidates) && (AsksForControl(r.message) ==> top.score >= 98)))
  {
    Ranked(ps, ss, r, p, q);
    ControlIff(r.message);
    var d := Resolve(ps, ss, r).value;
    if d.candidates != [] {
      assert d.candidates[0] in d.candidates;
      TopIsScored(ps, ss, r, d.candidates[0]);
    }
  }
}
