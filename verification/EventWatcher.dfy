/**
 The poller that turns a growing terminal log into events: it remembers a byte
 position and the text of an unfinished line, and keeps a bounded window of events.
 */
module EventWatcher {
  import opened Common
  import opened Text
  import opened Utf8
  import AnsiStrip

  datatype PipeEvent =
    | TaskStarted(taskId: string, title: string)
    | FileCreated(path: string)
    | FileModified(path: string)
    | CommandRan(command: string, success: Option<bool>)
    | TestRan(passed: bool, detail: string)
    | PromptDetected(prompt: string)
    | TaskCompleted(taskId: string)
    | CommitMade(hash: string, message: string)
    | OutputLine(line: string)

  /** The regular expressions of `EventPatterns`, seen as one function of the trimmed line. */
  type Classifier = string -> Option<PipeEvent>

  // ---- lines of a text -----------------------------------------------------------

  /** The lines that are finished by a line feed. */
  function CompleteLines(text: string): seq<string>
    decreases |text|
  {
    var n := Find(text, '\n');
    if n == |text| then [] else [text[..n]] + CompleteLines(text[n + 1..])
  }

  /** What follows the last line feed. */
  function Remainder(text: string): string
    decreases |text|
  {
    var n := Find(text, '\n');
    if n == |text| then text else Remainder(text[n + 1..])
  }

  lemma FindInPrefix(a: string, b: string)
    requires Find(a, '\n') < |a|
    ensures Find(a + b, '\n') == Find(a, '\n')
  {
    var n := Find(a, '\n');
    FindFacts(a, '\n');
    assert a + b == a[..n] + ['\n'] + (a[n + 1..] + b);
    FindInConcat(a[..n], '\n', a[n + 1..] + b);
  }

  /** Taking the first finished line off a text. */
  lemma FirstCompleteLine(text: string, n: nat)
    requires n == Find(text, '\n') < |text|
    ensures CompleteLines(text) == [text[..n]] + CompleteLines(text[n + 1..])
  {
  }

  lemma RemainderAfterFirstLine(text: string, n: nat)
    requires n == Find(text, '\n') < |text|
    ensures Remainder(text) == Remainder(text[n + 1..])
  {
    RemainderOfRest(text, text[n + 1..]);
  }

  lemma RemainderOfRest(text: string, rest: string)
    requires Find(text, '\n') < |text| && rest == text[Find(text, '\n') + 1..]
    ensures Remainder(text) == Remainder(rest)
  {
  }

  lemma CutInConcat(a: string, b: string, n: nat)
    requires n < |a|
    ensures (a + b)[..n] == a[..n] && (a + b)[n + 1..] == a[n + 1..] + b
  {
  }

  /** Splitting a text in two: the unfinished end of the first part joins the second. */
  lemma {:induction false} LinesOfConcat(a: string, b: string)
    ensures CompleteLines(a + b) == CompleteLines(a) + CompleteLines(Remainder(a) + b)
    ensures Remainder(a + b) == Remainder(Remainder(a) + b)
    decreases |a|
  {
    var n := Find(a, '\n');
    if n < |a| {
      var rest := a[n + 1..];
      FirstCompleteLine(a, n);
      RemainderAfterFirstLine(a, n);
      FindInPrefix(a, b);
      CutInConcat(a, b, n);
      FirstCompleteLine(a + b, n);
      RemainderAfterFirstLine(a + b, n);
      LinesOfConcat(rest, b);
      ConcatAssociative([a[..n]], CompleteLines(rest), CompleteLines(Remainder(rest) + b));
    } else {
      assert [] + CompleteLines(a + b) == CompleteLines(a + b);
    }
  }

  lemma {:induction false} RemainderFacts(text: string)
    ensures '\n' !in Remainder(text)
    ensures text != "" && text[|text| - 1] == '\n' ==> Remainder(text) == ""
    decreases |text|
  {
    var n := Find(text, '\n');
    FindFacts(text, '\n');
    if n < |text| {
      if n + 1 < |text| {
        RemainderFacts(text[n + 1..]);
      }
    } else {
      assert text[..n] == text;
    }
  }

  lemma NoLineFeedNoLines(text: string)
    requires '\n' !in text
    ensures CompleteLines(text) == [] && Remainder(text) == text
  {
    FindFacts(text, '\n');
  }

  // ---- events of lines -----------------------------------------------------------

  /** The event of one line, after stripping and trimming; blank lines have none. */
  function EventOf(classify: Classifier, line: string): Option<PipeEvent> {
    var trimmed := Trim(AnsiStrip.StripAnsi(line));
    if trimmed == "" then None else classify(trimmed)
  }

  /** The extraction of events from raw lines that goes with a classifier. */
  function Extraction(classify: Classifier): Classifier {
    line => EventOf(classify, line)
  }

  function EventsOf(extract: Classifier, lines: seq<string>): seq<PipeEvent> {
    if lines == [] then [] else OneEvent(extract, lines[0]) + EventsOf(extract, lines[1..])
  }

  function OneEvent(extract: Classifier, line: string): seq<PipeEvent> {
    var event := extract(line);
    if event.Some? then [event.value] else []
  }

  lemma {:induction false} EventsOfConcat(extract: Classifier, a: seq<string>, b: seq<string>)
    ensures EventsOf(extract, a + b) == EventsOf(extract, a) + EventsOf(extract, b)
  {
    if a == [] {
      assert a + b == b;
    } else {
      assert (a + b)[1..] == a[1..] + b;
      EventsOfConcat(extract, a[1..], b);
    }
  }

  lemma EventsOfOneMore(extract: Classifier, lines: seq<string>, line: string)
    ensures EventsOf(extract, lines + [line]) == EventsOf(extract, lines) + OneEvent(extract, line)
  {
    EventsOfConcat(extract, lines, [line]);
    assert [line][1..] == [];
  }

  // ---- the bounded window --------------------------------------------------------

  function Pushed(events: seq<PipeEvent>, maxSize: nat, event: PipeEvent): seq<PipeEvent> {
    if |events| >= maxSize && events != [] then events[1..] + [event] else events + [event]
  }

  function PushedAll(events: seq<PipeEvent>, maxSize: nat, pushed: seq<PipeEvent>): seq<PipeEvent>
    decreases |pushed|
  {
    if pushed == [] then events else PushedAll(Pushed(events, maxSize, pushed[0]), maxSize, pushed[1..])
  }

  /** The last `n` elements. */
  function Last(events: seq<PipeEvent>, n: nat): seq<PipeEvent> {
    if |events| <= n then events else events[|events| - n..]
  }

  /** A buffer that may hold nothing still holds one event. */
  function Capacity(maxSize: nat): nat {
    if maxSize == 0 then 1 else maxSize
  }

  /** The window always holds the last events pushed, as many as its capacity allows. */
  lemma {:induction false} WindowIsLast(events: seq<PipeEvent>, maxSize: nat, pushed: seq<PipeEvent>)
    requires |events| <= Capacity(maxSize)
    ensures PushedAll(events, maxSize, pushed) == Last(events + pushed, Capacity(maxSize))
    decreases |pushed|
  {
    if pushed == [] {
      assert events + pushed == events;
    } else {
      var event, rest := pushed[0], pushed[1..];
      assert pushed == [event] + rest;
      WindowIsLast(Pushed(events, maxSize, event), maxSize, rest);
      LastAfterPush(events, maxSize, event, rest);
    }
  }

  /** What a push evicts is not among the last events anyway. */
  lemma LastAfterPush(events: seq<PipeEvent>, maxSize: nat, event: PipeEvent, rest: seq<PipeEvent>)
    requires |events| <= Capacity(maxSize)
    ensures Last(Pushed(events, maxSize, event) + rest, Capacity(maxSize))
            == Last(events + ([event] + rest), Capacity(maxSize))
  {
    var next := Pushed(events, maxSize, event);
    if |events| >= maxSize && events != [] {
      assert events + ([event] + rest) == [events[0]] + (next + rest);
    } else {
      assert events + ([event] + rest) == next + rest;
    }
  }

  class EventBuffer {
    var events: seq<PipeEvent>
    const maxSize: nat

    constructor (maxSize: nat)
      ensures events == [] && this.maxSize == maxSize
    {
      this.maxSize, events := maxSize, [];
    }

    /** Evicts the oldest event when full, then appends. */
    method Push(event: PipeEvent)
      modifies this
      ensures events == Pushed(old(events), maxSize, event)
    {
      if |events| >= maxSize && |events| > 0 {
        events := events[1..];
      }
      events := events + [event];
    }

    method Clear()
      modifies this
      ensures events == []
    {
      events := [];
    }

    method Snapshot() returns (snapshot: seq<PipeEvent>)
      ensures snapshot == events
    {
      snapshot := events;
    }
  }

  // ---- the watcher ---------------------------------------------------------------

  datatype Watch = Watch(position: nat, lineBuffer: string)

  /** One poll: the new state and the lines it finished. */
  function PollStep(w: Watch, file: Option<seq<Byte>>): (Watch, seq<string>) {
    match file
    case None => (w, [])
    case Some(content) =>
      var from := if w.position > |content| then |content| else w.position;
      if from == |content| then (Watch(from, w.lineBuffer), [])
      else
        var text := w.lineBuffer + Decode(content[from..]);
        (Watch(|content|, Remainder(text)), CompleteLines(text))
  }

  /** The byte offset at which a new watcher can take over: `saturating_sub`. */
  function CheckpointOffset(w: Watch): nat {
    if w.position < ByteLength(w.lineBuffer) then 0 else w.position - ByteLength(w.lineBuffer)
  }

  class PipeWatcher {
    const classify: Classifier
    const buffer: EventBuffer
    var position: nat
    var lineBuffer: string

    constructor (classify: Classifier, buffer: EventBuffer, position: nat)
      ensures this.classify == classify && this.buffer == buffer
      ensures State() == Watch(position, "")
    {
      this.classify, this.buffer, this.position, this.lineBuffer := classify, buffer, position, "";
    }

    ghost function State(): Watch
      reads this
    {
      Watch(position, lineBuffer)
    }

    /** Reads what is new in the file, if it exists, and pushes the events of the lines it finishes. */
    method Poll(file: Option<seq<Byte>>) returns (count: nat)
      modifies this, buffer
      ensures State() == PollStep(old(State()), file).0
      ensures var pushed := EventsOf(Extraction(classify), PollStep(old(State()), file).1);
              count == |pushed| && buffer.events == PushedAll(old(buffer.events), buffer.maxSize, pushed)
    {
      if file.None? {
        return 0;
      }
      var content := file.value;
      if position > |content| {
        position := |content|;
      }
      var newBytes := content[position..];
      if |newBytes| == 0 {
        return 0;
      }
      position := position + |newBytes|;
      lineBuffer := lineBuffer + Decode(newBytes);
      ghost var text := lineBuffer;
      ghost var done: seq<string> := [];
      count := 0;
      while Find(lineBuffer, '\n') < |lineBuffer|
        invariant CompleteLines(text) == done + CompleteLines(lineBuffer)
        invariant Remainder(text) == Remainder(lineBuffer)
        invariant position == |content|
        invariant count == |EventsOf(Extraction(classify), done)|
        invariant buffer.events == PushedAll(old(buffer.events), buffer.maxSize, EventsOf(Extraction(classify), done))
        decreases |lineBuffer|
      {
        var newline := Find(lineBuffer, '\n');
        var line := lineBuffer[..newline];
        FirstCompleteLine(lineBuffer, newline);
        RemainderAfterFirstLine(lineBuffer, newline);
        lineBuffer := lineBuffer[newline + 1..];
        ConcatAssociative(done, [line], CompleteLines(lineBuffer));
        ghost var before := EventsOf(Extraction(classify), done);
        EventsOfOneMore(Extraction(classify), done, line);
        done := done + [line];
        var n := HandleLine(line);
        count := count + n;
        PushedConcat(old(buffer.events), buffer.maxSize, before, OneEvent(Extraction(classify), line));
      }
      assert done + [] == done;
    }

    /** The body of the loop: strip, trim, classify and push one finished line. */
    method HandleLine(line: string) returns (count: nat)
      modifies buffer
      ensures var pushed := OneEvent(Extraction(classify), line);
              count == |pushed| && buffer.events == PushedAll(old(buffer.events), buffer.maxSize, pushed)
    {
      var event := EventOf(classify, line);
      assert event == Extraction(classify)(line);
      if event.None? {
        return 0;
      }
      buffer.Push(event.value);
      assert [event.value][1..] == [];
      return 1;
    }

    method Checkpoint() returns (offset: nat)
      ensures offset == CheckpointOffset(State())
    {
      var length := ByteLength(lineBuffer);
      offset := if position < length then 0 else position - length;
    }
  }

  lemma {:induction false} PushedConcat(events: seq<PipeEvent>, maxSize: nat, a: seq<PipeEvent>, b: seq<PipeEvent>)
    ensures PushedAll(events, maxSize, a + b) == PushedAll(PushedAll(events, maxSize, a), maxSize, b)
    decreases |a|
  {
    if a == [] {
      assert a + b == b;
    } else {
      assert (a + b)[1..] == a[1..] + b;
      PushedConcat(Pushed(events, maxSize, a[0]), maxSize, a[1..], b);
    }
  }

  // ---- polls of a growing file ---------------------------------------------------

  /** The states of the file at successive polls; `None` while it does not exist. */
  type Polls = seq<Option<seq<Byte>>>

  function PollRun(w: Watch, polls: Polls): (Watch, seq<string>)
    decreases |polls|
  {
    if polls == [] then (w, [])
    else
      var (next, lines) := PollStep(w, polls[0]);
      var (end, more) := PollRun(next, polls[1..]);
      (end, lines + more)
  }

  /** The file as the last poll saw it; `seen` before the first one. */
  function LastSeen(seen: seq<Byte>, polls: Polls): seq<Byte>
    decreases |polls|
  {
    if polls == [] then seen
    else LastSeen(match polls[0] case Some(content) => content case None => seen, polls[1..])
  }

  /**
   Between polls the file only grows, and what is read from offset `start` on never
   ends inside an encoding.
   */
  predicate Growing(start: nat, seen: seq<Byte>, polls: Polls)
    requires start <= |seen|
    decreases |polls|
  {
    polls == [] ||
    match polls[0]
    case None => Growing(start, seen, polls[1..])
    case Some(content) => seen <= content && Complete(content[start..]) && Growing(start, content, polls[1..])
  }

  lemma {:induction false} LastSeenGrows(start: nat, seen: seq<Byte>, polls: Polls)
    requires start <= |seen| && Growing(start, seen, polls)
    requires Complete(seen[start..])
    ensures seen <= LastSeen(seen, polls)
    ensures Complete(LastSeen(seen, polls)[start..])
    decreases |polls|
  {
    if polls != [] {
      match polls[0]
      case None => LastSeenGrows(start, seen, polls[1..]);
      case Some(content) => LastSeenGrows(start, content, polls[1..]);
    }
  }

  /** Everything that the watcher has read so far, split into lines. */
  predicate Follows(w: Watch, start: nat, seen: seq<Byte>)
    requires start <= |seen|
  {
    w == Watch(|seen|, Remainder(Decode(seen[start..])))
  }

  lemma PollStepFollows(w: Watch, start: nat, seen: seq<Byte>, content: seq<Byte>)
    requires start <= |seen| && Follows(w, start, seen) && Complete(seen[start..])
    requires seen <= content
    ensures var (next, lines) := PollStep(w, Some(content));
            Follows(next, start, content) && Between(start, seen, content, lines)
  {
    var a, b := seen[start..], content[|seen|..];
    assert content[start..] == a + b;
    DecodeOfConcat(a, b);
    LinesOfConcat(Decode(a), Decode(b));
    if b == [] {
      RemainderFacts(Decode(a));
      NoLineFeedNoLines(Remainder(Decode(a)));
      assert Remainder(Decode(a)) + Decode(b) == Remainder(Decode(a));
    }
  }

  /** The lines finished between two states of the file. */
  predicate Between(start: nat, before: seq<Byte>, after: seq<Byte>, lines: seq<string>)
    requires start <= |before| && start <= |after|
  {
    CompleteLines(Decode(after[start..])) == CompleteLines(Decode(before[start..])) + lines
  }

  lemma BetweenTransitive(start: nat, a: seq<Byte>, b: seq<Byte>, c: seq<Byte>, first: seq<string>, second: seq<string>)
    requires start <= |a| && start <= |b| && start <= |c|
    requires Between(start, a, b, first) && Between(start, b, c, second)
    ensures Between(start, a, c, first + second)
  {
    ConcatAssociative(CompleteLines(Decode(a[start..])), first, second);
  }

  /** A poll that does not find the file changes nothing. */
  lemma SkippedPoll(w: Watch, seen: seq<Byte>, polls: Polls)
    requires polls != [] && polls[0].None?
    ensures PollRun(w, polls) == PollRun(w, polls[1..]) && LastSeen(seen, polls) == LastSeen(seen, polls[1..])
  {
    var rest := PollRun(w, polls[1..]);
    assert [] + rest.1 == rest.1;
  }

  lemma {:induction false} PollRunFollows(w: Watch, start: nat, seen: seq<Byte>, polls: Polls)
    requires start <= |seen| && Follows(w, start, seen) && Complete(seen[start..])
    requires Growing(start, seen, polls)
    ensures start <= |LastSeen(seen, polls)|
    ensures Follows(PollRun(w, polls).0, start, LastSeen(seen, polls))
    ensures Between(start, seen, LastSeen(seen, polls), PollRun(w, polls).1)
    decreases |polls|, 0
  {
    if polls == [] {
      assert CompleteLines(Decode(seen[start..])) + [] == CompleteLines(Decode(seen[start..]));
    } else if polls[0].None? {
      PollRunFollows(w, start, seen, polls[1..]);
      SkippedPoll(w, seen, polls);
    } else {
      PollRunFollowsGrowth(w, start, seen, polls[0].value, polls[1..]);
    }
  }

  lemma {:induction false} PollRunFollowsGrowth(w: Watch, start: nat, seen: seq<Byte>, content: seq<Byte>, rest: Polls)
    requires start <= |seen| && Follows(w, start, seen) && Complete(seen[start..])
    requires seen <= content && Complete(content[start..]) && Growing(start, content, rest)
    ensures start <= |LastSeen(content, rest)|
    ensures var (next, lines) := PollStep(w, Some(content));
            var (end, more) := PollRun(next, rest);
            && Follows(end, start, LastSeen(content, rest))
            && Between(start, seen, LastSeen(content, rest), lines + more)
    decreases |rest|, 1
  {
    var (next, lines) := PollStep(w, Some(content));
    PollStepFollows(w, start, seen, content);
    PollRunFollows(next, start, content, rest);
    BetweenTransitive(start, seen, content, LastSeen(content, rest), lines, PollRun(next, rest).1);
  }

  // ---- the window of a run -------------------------------------------------------

  /** The window after the polls, each pushing the events of the lines it finishes. */
  function WindowRun(classify: Classifier, maxSize: nat, events: seq<PipeEvent>, w: Watch, polls: Polls): seq<PipeEvent>
    decreases |polls|
  {
    if polls == [] then events
    else
      var (next, lines) := PollStep(w, polls[0]);
      WindowRun(classify, maxSize, PushedAll(events, maxSize, EventsOf(Extraction(classify), lines)), next, polls[1..])
  }

  /** Pushing poll by poll leaves the window that pushing everything at once leaves. */
  lemma {:induction false} WindowOfRun(classify: Classifier, maxSize: nat, events: seq<PipeEvent>, w: Watch,
                                       polls: Polls)
    ensures WindowRun(classify, maxSize, events, w, polls)
            == PushedAll(events, maxSize, EventsOf(Extraction(classify), PollRun(w, polls).1))
    decreases |polls|
  {
    if polls != [] {
      var (next, lines) := PollStep(w, polls[0]);
      var more := PollRun(next, polls[1..]).1;
      var extract := Extraction(classify);
      WindowOfRun(classify, maxSize, PushedAll(events, maxSize, EventsOf(extract, lines)), next, polls[1..]);
      EventsOfConcat(extract, lines, more);
      PushedConcat(events, maxSize, EventsOf(extract, lines), EventsOf(extract, more));
    }
  }

  // ---- polls that cut the file anywhere --------------------------------------------

  /** The file only grows; a poll may end inside an encoding. */
  predicate Appended(seen: seq<Byte>, polls: Polls)
    decreases |polls|
  {
    polls == [] ||
    match polls[0]
    case None => Appended(seen, polls[1..])
    case Some(content) => seen <= content && Appended(content, polls[1..])
  }

  /** What the polls read, each piece decoded on its own. */
  function ReadText(seen: seq<Byte>, polls: Polls): string
    requires Appended(seen, polls)
    decreases |polls|
  {
    if polls == [] then ""
    else
      match polls[0]
      case None => ReadText(seen, polls[1..])
      case Some(content) => Decode(content[|seen|..]) + ReadText(content, polls[1..])
  }

  lemma {:induction false} LinesKeepText(text: string)
    ensures Unlines(CompleteLines(text)) + Remainder(text) == text
    ensures |CompleteLines(text)| == multiset(text)['\n']
    decreases |text|
  {
    var n := Find(text, '\n');
    FindFacts(text, '\n');
    if n < |text| {
      var rest := text[n + 1..];
      LinesKeepText(rest);
      FirstCompleteLine(text, n);
      RemainderAfterFirstLine(text, n);
      CutAtLineFeed(text, n);
      FirstLineBack(text[..n], CompleteLines(rest), Remainder(rest), rest);
    } else {
      NoLineFeedNoLines(text);
      assert "" + text == text;
    }
  }

  lemma CutAtLineFeed(text: string, n: nat)
    requires n < |text| && text[n] == '\n'
    ensures text == text[..n] + "\n" + text[n + 1..]
  {
  }

  lemma FirstLineBack(line: string, lines: seq<string>, end: string, rest: string)
    requires '\n' !in line && Unlines(lines) + end == rest && |lines| == multiset(rest)['\n']
    ensures Unlines([line] + lines) + end == line + "\n" + rest
    ensures |[line] + lines| == multiset(line + "\n" + rest)['\n']
  {
    assert ([line] + lines)[1..] == lines;
    ConcatAssociative(line + "\n", Unlines(lines), end);
  }

  lemma {:induction false} UnlinesOfConcat(a: seq<string>, b: seq<string>)
    ensures Unlines(a + b) == Unlines(a) + Unlines(b)
  {
    if a == [] {
      assert a + b == b;
    } else {
      assert (a + b)[1..] == a[1..] + b && (a + b)[0] == a[0];
      UnlinesOfConcat(a[1..], b);
    }
  }

  /** One poll of a grown file: what was in the buffer and what is new is in the lines and the new buffer. */
  lemma AppendedStep(w: Watch, seen: seq<Byte>, content: seq<Byte>)
    requires w.position == |seen| && seen <= content && '\n' !in w.lineBuffer
    ensures var (next, lines) := PollStep(w, Some(content));
            && next.position == |content| && '\n' !in next.lineBuffer
            && Unlines(lines) + next.lineBuffer == w.lineBuffer + Decode(content[|seen|..])
            && |lines| == LineFeeds(content[|seen|..])
  {
    var unread := content[|seen|..];
    var text := w.lineBuffer + Decode(unread);
    PollStepOfText(w, content, text);
    LinesKeepText(text);
    RemainderFacts(text);
    DecodeKeepsLineFeeds(unread);
  }

  /** A poll that finds nothing new does what it would do with an empty text. */
  lemma PollStepOfText(w: Watch, content: seq<Byte>, text: string)
    requires w.position <= |content| && '\n' !in w.lineBuffer
    requires text == w.lineBuffer + Decode(content[w.position..])
    ensures PollStep(w, Some(content)) == (Watch(|content|, Remainder(text)), CompleteLines(text))
  {
    if w.position == |content| {
      assert text == w.lineBuffer;
      NoLineFeedNoLines(text);
    }
  }

  lemma {:induction false} AppendedGrows(seen: seq<Byte>, polls: Polls)
    requires Appended(seen, polls)
    ensures seen <= LastSeen(seen, polls)
    decreases |polls|
  {
    if polls != [] {
      match polls[0]
      case None => AppendedGrows(seen, polls[1..]);
      case Some(content) => AppendedGrows(content, polls[1..]);
    }
  }

  /**
   Wherever the polls cut the file, inside encodings too, no text is lost or repeated
   and every line feed of the file finishes one line.
   */
  lemma {:induction false} EveryCutKeepsLines(w: Watch, seen: seq<Byte>, polls: Polls)
    requires Appended(seen, polls) && w.position == |seen| && '\n' !in w.lineBuffer
    ensures var (end, lines) := PollRun(w, polls);
            && seen <= LastSeen(seen, polls)
            && Unlines(lines) + end.lineBuffer == w.lineBuffer + ReadText(seen, polls)
            && |lines| == LineFeeds(LastSeen(seen, polls)[|seen|..])
    decreases |polls|, 0
  {
    AppendedGrows(seen, polls);
    if polls == [] {
      assert "" + w.lineBuffer == w.lineBuffer + "" && seen[|seen|..] == [];
    } else if polls[0].None? {
      EveryCutKeepsLines(w, seen, polls[1..]);
      SkippedPoll(w, seen, polls);
    } else {
      EveryCutKeepsMore(w, seen, polls[0].value, polls[1..]);
    }
  }

  lemma {:induction false} EveryCutKeepsMore(w: Watch, seen: seq<Byte>, content: seq<Byte>, polls: Polls)
    requires seen <= content && Appended(content, polls) && w.position == |seen| && '\n' !in w.lineBuffer
    ensures var (next, lines) := PollStep(w, Some(content));
            var (end, more) := PollRun(next, polls);
            && content <= LastSeen(content, polls)
            && Unlines(lines + more) + end.lineBuffer
               == w.lineBuffer + (Decode(content[|seen|..]) + ReadText(content, polls))
            && |lines + more| == LineFeeds(LastSeen(content, polls)[|seen|..])
    decreases |polls|, 1
  {
    var (next, lines) := PollStep(w, Some(content));
    AppendedStep(w, seen, content);
    EveryCutKeepsLines(next, content, polls);
    var (end, more) := PollRun(next, polls);
    LineFeedsOfPieces(seen, content, LastSeen(content, polls));
    JoinedText(lines, more, end.lineBuffer, next.lineBuffer, w.lineBuffer,
               Decode(content[|seen|..]), ReadText(content, polls));
  }

  lemma LineFeedsOfPieces(seen: seq<Byte>, content: seq<Byte>, whole: seq<Byte>)
    requires seen <= content <= whole
    ensures LineFeeds(whole[|seen|..]) == LineFeeds(content[|seen|..]) + LineFeeds(whole[|content|..])
  {
    assert whole[|seen|..] == content[|seen|..] + whole[|content|..];
  }

  lemma JoinedText(lines: seq<string>, more: seq<string>, end: string, middle: string, start: string, first: string,
                   second: string)
    requires Unlines(lines) + middle == start + first && Unlines(more) + end == middle + second
    ensures Unlines(lines + more) + end == start + (first + second)
  {
    UnlinesOfConcat(lines, more);
    ConcatAssociative(Unlines(lines), Unlines(more), end);
    ConcatAssociative(Unlines(lines), middle, second);
    ConcatAssociative(start, first, second);
  }

  /**
   However the growth of the file is cut into polls, the watcher handles exactly the
   complete lines of the whole file, once and in order; the text after the last line
   feed is in its buffer, and the window holds the last events.
   */
  lemma PollsAgreeWithWholeFile(classify: Classifier, maxSize: nat, seen: seq<Byte>, polls: Polls)
    requires Growing(|seen|, seen, polls)
    ensures var whole := LastSeen(seen, polls);
            var (end, lines) := PollRun(Watch(|seen|, ""), polls);
            && seen <= whole
            && var text := Decode(whole[|seen|..]);
               && lines == CompleteLines(text)
               && end == Watch(|whole|, Remainder(text))
               && WindowRun(classify, maxSize, [], Watch(|seen|, ""), polls)
                    == Last(EventsOf(Extraction(classify), CompleteLines(text)), Capacity(maxSize))
  {
    RunFromStart(seen, polls);
    WindowOfRun(classify, maxSize, [], Watch(|seen|, ""), polls);
    var events := EventsOf(Extraction(classify), PollRun(Watch(|seen|, ""), polls).1);
    WindowIsLast([], maxSize, events);
    assert [] + events == events;
  }

  // ---- checkpoints ---------------------------------------------------------------

  /** The bytes after the last line feed. */
  function Tail(bs: seq<Byte>): (tail: seq<Byte>)
    ensures |tail| <= |bs|
  {
    if bs == [] || bs[|bs| - 1] == LINE_FEED then [] else Tail(bs[..|bs| - 1]) + [bs[|bs| - 1]]
  }

  lemma {:induction false} TailFacts(bs: seq<Byte>)
    ensures LINE_FEED !in Tail(bs)
    ensures bs == bs[..|bs| - |Tail(bs)|] + Tail(bs)
    ensures var head := bs[..|bs| - |Tail(bs)|]; head == [] || head[|head| - 1] == LINE_FEED
  {
    if bs != [] && bs[|bs| - 1] != LINE_FEED {
      TailFacts(bs[..|bs| - 1]);
      var head := bs[..|bs| - |Tail(bs)|];
      assert head == bs[..|bs| - 1][..|bs| - 1 - |Tail(bs[..|bs| - 1])|];
    }
  }

  /** The text splits at the last line feed in the same place as the bytes. */
  lemma RemainderIsTail(bs: seq<Byte>)
    ensures var head := bs[..|bs| - |Tail(bs)|];
            && Complete(head)
            && Remainder(Decode(bs)) == Decode(Tail(bs))
            && Remainder(Decode(head)) == ""
            && CompleteLines(Decode(bs)) == CompleteLines(Decode(head))
  {
    var tail := Tail(bs);
    var head := bs[..|bs| - |tail|];
    TailFacts(bs);
    if head != [] {
      CompleteAfterLineFeed(head);
      RemainderFacts(Decode(head));
    }
    DecodeOfConcat(head, tail);
    DecodeWithoutLineFeed(tail);
    NoLineFeedNoLines(Decode(tail));
    LinesOfConcat(Decode(head), Decode(tail));
    assert "" + Decode(tail) == Decode(tail);
    assert CompleteLines(Decode(head)) + [] == CompleteLines(Decode(head));
  }

  /**
   The checkpoint is the offset just after the last line feed exactly when the
   unfinished line has as many bytes in memory as in the file; well-formed UTF-8 has.
   */
  lemma CheckpointIsLineStartIff(start: nat, seen: seq<Byte>)
    requires start <= |seen|
    ensures var tail := Tail(seen[start..]);
            var w := Watch(|seen|, Remainder(Decode(seen[start..])));
            && (CheckpointOffset(w) == |seen| - |tail|
                <==> ByteLength(Decode(tail)) == |tail| || (|tail| == |seen| && ByteLength(Decode(tail)) > |seen|))
            && (WellFormed(tail) ==> ByteLength(Decode(tail)) == |tail|)
  {
    RemainderIsTail(seen[start..]);
    DecodedLength(Tail(seen[start..]));
  }

  lemma CompleteFromLineStart(start: nat, checkpoint: nat, content: seq<Byte>)
    requires start <= checkpoint <= |content|
    requires Complete(content[start..checkpoint])
    ensures Complete(content[start..]) <==> Complete(content[checkpoint..])
    ensures Decode(content[start..]) == Decode(content[start..checkpoint]) + Decode(content[checkpoint..])
  {
    assert content[start..] == content[start..checkpoint] + content[checkpoint..];
    DecodeOfConcat(content[start..checkpoint], content[checkpoint..]);
  }

  lemma {:induction false} GrowingFromLineStart(start: nat, checkpoint: nat, seen: seq<Byte>, polls: Polls)
    requires start <= checkpoint <= |seen| && Complete(seen[start..checkpoint])
    requires Growing(start, seen, polls)
    ensures Growing(checkpoint, seen, polls)
    decreases |polls|
  {
    if polls != [] {
      match polls[0]
      case None => GrowingFromLineStart(start, checkpoint, seen, polls[1..]);
      case Some(content) =>
        assert content[start..checkpoint] == seen[start..checkpoint];
        CompleteFromLineStart(start, checkpoint, content);
        GrowingFromLineStart(start, checkpoint, content, polls[1..]);
    }
  }

  /** A watcher started at a line start of a longer file catches up with one that was never stopped. */
  lemma {:induction false} RestartedRunLines(checkpoint: nat, seen: seq<Byte>, polls: Polls)
    requires checkpoint <= |seen|
    requires LINE_FEED !in seen[checkpoint..] && Complete(seen[checkpoint..])
    requires Growing(checkpoint, seen, polls)
    ensures var whole := LastSeen(seen, polls);
            && checkpoint <= |whole|
            && PollRun(Watch(checkpoint, ""), polls).1 == CompleteLines(Decode(whole[checkpoint..]))
    decreases |polls|
  {
    var w := Watch(checkpoint, "");
    var unread := seen[checkpoint..];
    DecodeWithoutLineFeed(unread);
    NoLineFeedNoLines(Decode(unread));
    if polls != [] {
      match polls[0]
      case None => RestartedRunLines(checkpoint, seen, polls[1..]);
      case Some(content) =>
        var text := Decode(content[checkpoint..]);
        assert w.lineBuffer + text == text;
        var (next, lines) := PollStep(w, polls[0]);
        if checkpoint < |content| {
          assert Follows(next, checkpoint, content) && lines == CompleteLines(text);
          PollRunFollows(next, checkpoint, content, polls[1..]);
        } else {
          assert next == w && content == seen;
          RestartedRunLines(checkpoint, seen, polls[1..]);
        }
    }
  }

  /** A run from the beginning follows the file and has finished all its lines. */
  lemma RunFromStart(seen: seq<Byte>, polls: Polls)
    requires Growing(|seen|, seen, polls)
    ensures var whole := LastSeen(seen, polls);
            var (end, lines) := PollRun(Watch(|seen|, ""), polls);
            seen <= whole && Follows(end, |seen|, whole) && lines == CompleteLines(Decode(whole[|seen|..]))
  {
    assert seen[|seen|..] == [];
    LastSeenGrows(|seen|, seen, polls);
    PollRunFollows(Watch(|seen|, ""), |seen|, seen, polls);
    assert [] + PollRun(Watch(|seen|, ""), polls).1 == PollRun(Watch(|seen|, ""), polls).1;
  }

  lemma {:induction false} PollRunConcat(w: Watch, a: Polls, b: Polls)
    ensures PollRun(w, a + b).1 == PollRun(w, a).1 + PollRun(PollRun(w, a).0, b).1
    decreases |a|
  {
    if a == [] {
      assert a + b == b;
    } else {
      assert (a + b)[0] == a[0] && (a + b)[1..] == a[1..] + b;
      PollRunConcat(PollStep(w, a[0]).0, a[1..], b);
    }
  }

  lemma SplitRange(bs: seq<Byte>, start: nat, n: nat)
    requires start <= |bs| && n <= |bs| - start
    ensures bs[start..][..n] == bs[start..start + n] && bs[start..][n..] == bs[start + n..]
  {
  }

  lemma PrefixRange(a: seq<Byte>, b: seq<Byte>, from: nat, to: nat)
    requires a <= b && from <= to <= |a|
    ensures a[from..to] == b[from..to]
  {
  }

  lemma LinesAfterLineStart(head: string, rest: string)
    requires Remainder(head) == ""
    ensures CompleteLines(head + rest) == CompleteLines(head) + CompleteLines(rest)
  {
    LinesOfConcat(head, rest);
    assert "" + rest == rest;
  }

  /** The bytes before and after the checkpoint are those before and after the last line feed that was read. */
  lemma CheckpointSplits(start: nat, seen: seq<Byte>, checkpoint: nat)
    requires start <= |seen| && checkpoint == |seen| - |Tail(seen[start..])|
    ensures start <= checkpoint <= |seen|
    ensures seen[start..checkpoint] == seen[start..][..|seen[start..]| - |Tail(seen[start..])|]
    ensures seen[checkpoint..] == Tail(seen[start..])
  {
    var read := seen[start..];
    SplitRange(seen, start, |read| - |Tail(read)|);
    TailFacts(read);
  }

  /** The checkpoint of what was read is the start of a line, from where the rest can be read on its own. */
  lemma LineStartFacts(start: nat, seen: seq<Byte>, checkpoint: nat)
    requires start <= |seen| && Complete(seen[start..])
    requires checkpoint == |seen| - |Tail(seen[start..])|
    ensures start <= checkpoint <= |seen|
    ensures Complete(seen[start..checkpoint]) && Complete(seen[checkpoint..]) && LINE_FEED !in seen[checkpoint..]
    ensures Remainder(Decode(seen[start..checkpoint])) == ""
    ensures CompleteLines(Decode(seen[start..])) == CompleteLines(Decode(seen[start..checkpoint]))
  {
    CheckpointSplits(start, seen, checkpoint);
    RemainderIsTail(seen[start..]);
    TailFacts(seen[start..]);
    CompleteFromLineStart(start, checkpoint, seen);
  }

  /** The lines of a longer file are those that were finished before, then those from the last line start on. */
  lemma WholeSplitsAtLineStart(start: nat, seen: seq<Byte>, whole: seq<Byte>, checkpoint: nat)
    requires start <= |seen| && Complete(seen[start..]) && seen <= whole
    requires checkpoint == |seen| - |Tail(seen[start..])|
    ensures start <= checkpoint <= |seen|
    ensures CompleteLines(Decode(whole[start..]))
            == CompleteLines(Decode(seen[start..])) + CompleteLines(Decode(whole[checkpoint..]))
  {
    LineStartFacts(start, seen, checkpoint);
    PrefixRange(seen, whole, start, checkpoint);
    CompleteFromLineStart(start, checkpoint, whole);
    LinesAfterLineStart(Decode(seen[start..checkpoint]), Decode(whole[checkpoint..]));
  }

  lemma RestartedAtCheckpoint(start: nat, seen: seq<Byte>, after: Polls, checkpoint: nat)
    requires start <= |seen| && Complete(seen[start..]) && Growing(start, seen, after)
    requires checkpoint == |seen| - |Tail(seen[start..])|
    ensures var whole := LastSeen(seen, after);
            && checkpoint <= |whole|
            && PollRun(Watch(checkpoint, ""), after).1 == CompleteLines(Decode(whole[checkpoint..]))
  {
    LineStartFacts(start, seen, checkpoint);
    GrowingFromLineStart(start, checkpoint, seen, after);
    RestartedRunLines(checkpoint, seen, after);
  }

  // ---- resuming at the checkpoint ------------------------------------------------------

  /** A watcher that starts here does not start in the middle of a line. */
  predicate AtLineStart(first: seq<Byte>) {
    first == [] || first[|first| - 1] == LINE_FEED
  }

  /** The unfinished line is seen from its start: a line feed was read, or the watcher started at one. */
  predicate SeesLineStart(start: nat, seen: seq<Byte>)
    requires start <= |seen|
  {
    AtLineStart(seen[..start]) || LINE_FEED in seen[start..]
  }

  /** Some poll finds the file. */
  predicate Reads(polls: Polls) {
    polls != [] && (polls[0].Some? || Reads(polls[1..]))
  }

  lemma {:induction false} NothingRead(w: Watch, seen: seq<Byte>, polls: Polls)
    requires !Reads(polls)
    ensures PollRun(w, polls).1 == [] && LastSeen(seen, polls) == seen
    decreases |polls|
  {
    if polls != [] {
      NothingRead(w, seen, polls[1..]);
    }
  }

  /** A stretch that ends in a line feed is read on its own, and has at least one line. */
  lemma StretchOfLines(from: nat, to: nat, content: seq<Byte>)
    requires from < to <= |content| && content[to - 1] == LINE_FEED
    ensures Complete(content[from..]) <==> Complete(content[to..])
    ensures CompleteLines(Decode(content[from..]))
            == CompleteLines(Decode(content[from..to])) + CompleteLines(Decode(content[to..]))
    ensures CompleteLines(Decode(content[from..to])) != []
  {
    var stretch := content[from..to];
    CompleteAfterLineFeed(stretch);
    RemainderFacts(Decode(stretch));
    CompleteFromLineStart(from, to, content);
    LinesAfterLineStart(Decode(stretch), Decode(content[to..]));
    HasALine(Decode(stretch));
  }

  lemma HasALine(text: string)
    requires text != "" && text[|text| - 1] == '\n'
    ensures CompleteLines(text) != []
  {
    FindFacts(text, '\n');
    assert text[|text| - 1] in text;
  }

  lemma {:induction false} GrowingFromEarlier(from: nat, to: nat, seen: seq<Byte>, polls: Polls)
    requires from < to <= |seen| && seen[to - 1] == LINE_FEED
    requires Growing(to, seen, polls)
    ensures Growing(from, seen, polls)
    decreases |polls|
  {
    if polls != [] {
      match polls[0]
      case None => GrowingFromEarlier(from, to, seen, polls[1..]);
      case Some(content) =>
        StretchOfLines(from, to, content);
        GrowingFromEarlier(from, to, content, polls[1..]);
    }
  }

  /** A watcher started before a line start that was already read reads everything from there again. */
  lemma {:induction false} EarlyRestartLines(from: nat, to: nat, seen: seq<Byte>, polls: Polls)
    requires from < to <= |seen| && seen[to - 1] == LINE_FEED
    requires Growing(to, seen, polls) && Reads(polls)
    ensures from <= |LastSeen(seen, polls)|
    ensures PollRun(Watch(from, ""), polls).1 == CompleteLines(Decode(LastSeen(seen, polls)[from..]))
    decreases |polls|
  {
    match polls[0]
    case None => EarlyRestartLines(from, to, seen, polls[1..]);
    case Some(content) =>
      FirstReadFollows(from, content);
      StretchOfLines(from, to, content);
      GrowingFromEarlier(from, to, content, polls[1..]);
      PollRunFollows(PollStep(Watch(from, ""), polls[0]).0, from, content, polls[1..]);
  }

  lemma FirstReadFollows(from: nat, content: seq<Byte>)
    requires from < |content|
    ensures var (next, lines) := PollStep(Watch(from, ""), Some(content));
            Follows(next, from, content) && lines == CompleteLines(Decode(content[from..]))
  {
    assert "" + Decode(content[from..]) == Decode(content[from..]);
  }

  /** The lines of what was read between the checkpoint and the start of the unfinished line. */
  function RereadLines(seen: seq<Byte>, checkpoint: nat, lineStart: nat): seq<string>
    requires checkpoint <= lineStart <= |seen|
  {
    CompleteLines(Decode(seen[checkpoint..lineStart]))
  }

  /** The unfinished line is as long in memory as in the file, or it is all that the file holds. */
  predicate SameLength(tail: seq<Byte>, seen: seq<Byte>) {
    ByteLength(Decode(tail)) == |tail| || |tail| == |seen|
  }

  /** The unfinished line starts after a line feed, unless the watcher started in the middle of it. */
  lemma LineStartAfterLineFeed(start: nat, seen: seq<Byte>, lineStart: nat)
    requires start <= |seen| && SeesLineStart(start, seen)
    requires lineStart == |seen| - |Tail(seen[start..])|
    ensures start <= lineStart <= |seen|
    ensures lineStart > 0 ==> seen[lineStart - 1] == LINE_FEED
  {
    CheckpointSplits(start, seen, lineStart);
    TailFacts(seen[start..]);
    if start < lineStart {
      assert seen[start..][lineStart - start - 1] == seen[lineStart - 1];
    } else if start > 0 {
      assert seen[..start][start - 1] == seen[start - 1];
    }
  }

  /** The checkpoint never falls after the start of the unfinished line. */
  lemma CheckpointNotAfterLineStart(start: nat, seen: seq<Byte>, lineStart: nat, checkpoint: nat)
    requires start <= |seen| && lineStart == |seen| - |Tail(seen[start..])|
    requires checkpoint == CheckpointOffset(Watch(|seen|, Remainder(Decode(seen[start..]))))
    ensures checkpoint <= lineStart <= |seen|
    ensures checkpoint == lineStart <==> SameLength(Tail(seen[start..]), seen)
  {
    RemainderIsTail(seen[start..]);
    DecodedLength(Tail(seen[start..]));
  }

  /** A new watcher first reads again what lies between checkpoint and line start, then what was missing. */
  lemma RestartLines(start: nat, seen: seq<Byte>, after: Polls, lineStart: nat, checkpoint: nat)
    requires start <= |seen| && Complete(seen[start..]) && Growing(start, seen, after)
    requires lineStart == |seen| - |Tail(seen[start..])|
    requires checkpoint <= lineStart && (checkpoint < lineStart ==> seen[lineStart - 1] == LINE_FEED)
    requires Reads(after)
    ensures lineStart <= |seen| && lineStart <= |LastSeen(seen, after)|
    ensures PollRun(Watch(checkpoint, ""), after).1
            == RereadLines(seen, checkpoint, lineStart) + CompleteLines(Decode(LastSeen(seen, after)[lineStart..]))
  {
    var whole := LastSeen(seen, after);
    LineStartFacts(start, seen, lineStart);
    LastSeenGrows(start, seen, after);
    if checkpoint == lineStart {
      RestartedAtCheckpoint(start, seen, after, lineStart);
      NothingReread(seen, lineStart, CompleteLines(Decode(whole[lineStart..])));
    } else {
      GrowingFromLineStart(start, lineStart, seen, after);
      EarlyRestartLines(checkpoint, lineStart, seen, after);
      StretchOfLines(checkpoint, lineStart, whole);
      PrefixRange(seen, whole, checkpoint, lineStart);
    }
  }

  lemma NothingReread(seen: seq<Byte>, at: nat, lines: seq<string>)
    requires at <= |seen|
    ensures RereadLines(seen, at, at) + lines == lines
  {
    assert seen[at..at] == [];
  }

  lemma CancelPrefix(a: seq<string>, b: seq<string>, c: seq<string>)
    requires a + b == a + c
    ensures b == c
  {
    assert b == (a + b)[|a|..] && c == (a + c)[|a|..];
  }

  /** The watcher that is never stopped still has the lines from the unfinished one on to read. */
  lemma MissingLines(w: Watch, start: nat, seen: seq<Byte>, after: Polls, lineStart: nat)
    requires start <= |seen| && Complete(seen[start..]) && Growing(start, seen, after) && Follows(w, start, seen)
    requires lineStart == |seen| - |Tail(seen[start..])|
    ensures lineStart <= |LastSeen(seen, after)|
    ensures PollRun(w, after).1 == CompleteLines(Decode(LastSeen(seen, after)[lineStart..]))
  {
    var whole := LastSeen(seen, after);
    LastSeenGrows(start, seen, after);
    PollRunFollows(w, start, seen, after);
    WholeSplitsAtLineStart(start, seen, whole, lineStart);
    CancelPrefix(CompleteLines(Decode(seen[start..])), PollRun(w, after).1, CompleteLines(Decode(whole[lineStart..])));
  }

  /** What a new watcher reads again, once it reads at all. */
  function Repeated(seen: seq<Byte>, checkpoint: nat, lineStart: nat, after: Polls): seq<string>
    requires checkpoint <= lineStart <= |seen|
  {
    if Reads(after) then RereadLines(seen, checkpoint, lineStart) else []
  }

  lemma RereadIff(seen: seq<Byte>, checkpoint: nat, lineStart: nat)
    requires checkpoint <= lineStart <= |seen| && (checkpoint < lineStart ==> seen[lineStart - 1] == LINE_FEED)
    ensures RereadLines(seen, checkpoint, lineStart) == [] <==> checkpoint == lineStart
  {
    if checkpoint < lineStart {
      StretchOfLines(checkpoint, lineStart, seen);
    } else {
      assert seen[checkpoint..lineStart] == [];
    }
  }

  lemma RestartedLines(w: Watch, start: nat, seen: seq<Byte>, after: Polls, lineStart: nat, checkpoint: nat)
    requires start <= |seen| && Complete(seen[start..]) && Growing(start, seen, after) && Follows(w, start, seen)
    requires lineStart == |seen| - |Tail(seen[start..])|
    requires checkpoint <= lineStart && (checkpoint < lineStart ==> seen[lineStart - 1] == LINE_FEED)
    ensures PollRun(Watch(checkpoint, ""), after).1
            == Repeated(seen, checkpoint, lineStart, after) + PollRun(w, after).1
    ensures Repeated(seen, checkpoint, lineStart, after) == [] <==> !Reads(after) || checkpoint == lineStart
  {
    if Reads(after) {
      MissingLines(w, start, seen, after, lineStart);
      RestartLines(start, seen, after, lineStart, checkpoint);
      RereadIff(seen, checkpoint, lineStart);
    } else {
      NothingRead(w, seen, after);
      NothingRead(Watch(checkpoint, ""), seen, after);
    }
  }

  /** From where a watcher that follows the file can be resumed. */
  lemma RestartedAtItsCheckpoint(w: Watch, start: nat, seen: seq<Byte>, after: Polls, lineStart: nat)
    requires start <= |seen| && Complete(seen[start..]) && Growing(start, seen, after) && Follows(w, start, seen)
    requires lineStart == |seen| - |Tail(seen[start..])|
    requires SeesLineStart(start, seen) || SameLength(Tail(seen[start..]), seen)
    ensures CheckpointOffset(w) <= lineStart <= |seen|
    ensures PollRun(Watch(CheckpointOffset(w), ""), after).1
            == Repeated(seen, CheckpointOffset(w), lineStart, after) + PollRun(w, after).1
    ensures Repeated(seen, CheckpointOffset(w), lineStart, after) == []
            <==> !Reads(after) || SameLength(Tail(seen[start..]), seen)
  {
    CheckpointNotAfterLineStart(start, seen, lineStart, CheckpointOffset(w));
    if SeesLineStart(start, seen) {
      LineStartAfterLineFeed(start, seen, lineStart);
    }
    RestartedLines(w, start, seen, after, lineStart, CheckpointOffset(w));
  }

  /**
   Stopping after any poll and starting a new watcher at the checkpoint loses
   nothing: the new lines are those that the watcher that was never stopped would
   still have read, after a repetition of the lines between checkpoint and line start.
   */
  lemma ResumedLines(first: seq<Byte>, before: Polls, after: Polls, seen: seq<Byte>, stopped: Watch, lineStart: nat)
    requires Growing(|first|, first, before)
    requires seen == LastSeen(first, before) && stopped == PollRun(Watch(|first|, ""), before).0
    requires first <= seen && Growing(|first|, seen, after)
    requires lineStart == |seen| - |Tail(seen[|first|..])|
    requires SeesLineStart(|first|, seen) || SameLength(Tail(seen[|first|..]), seen)
    ensures PollRun(Watch(|first|, ""), before + after).1
            == PollRun(Watch(|first|, ""), before).1 + PollRun(stopped, after).1
    ensures CheckpointOffset(stopped) <= lineStart <= |seen|
    ensures PollRun(Watch(CheckpointOffset(stopped), ""), after).1
            == Repeated(seen, CheckpointOffset(stopped), lineStart, after) + PollRun(stopped, after).1
    ensures Repeated(seen, CheckpointOffset(stopped), lineStart, after) == []
            <==> !Reads(after) || SameLength(Tail(seen[|first|..]), seen)
  {
    LastSeenGrows(|first|, first, before);
    RunFromStart(first, before);
    PollRunConcat(Watch(|first|, ""), before, after);
    RestartedAtItsCheckpoint(stopped, |first|, seen, after, lineStart);
  }

  /**
   The old lines followed by the new ones are those of the watcher that was never
   stopped whenever the unfinished line has the same length in memory as in the
   file; and only then, for a watcher that saw the start of that line and reads on.
   */
  lemma ResumeAtCheckpoint(first: seq<Byte>, before: Polls, after: Polls, seen: seq<Byte>, stopped: Watch)
    requires Growing(|first|, first, before)
    requires seen == LastSeen(first, before) && stopped == PollRun(Watch(|first|, ""), before).0
    requires first <= seen && Growing(|first|, seen, after)
    ensures var old_ := PollRun(Watch(|first|, ""), before).1;
            var new_ := PollRun(Watch(CheckpointOffset(stopped), ""), after).1;
            var exact := PollRun(Watch(|first|, ""), before + after).1 == old_ + new_;
            var same := SameLength(Tail(seen[|first|..]), seen);
            (same ==> exact) && (SeesLineStart(|first|, seen) ==> (exact <==> same || !Reads(after)))
  {
    if SeesLineStart(|first|, seen) || SameLength(Tail(seen[|first|..]), seen) {
      var new_ := PollRun(Watch(CheckpointOffset(stopped), ""), after).1;
      ResumedLines(first, before, after, seen, stopped, |seen| - |Tail(seen[|first|..])|);
      RepeatedMatters(PollRun(Watch(|first|, ""), before).1, new_, PollRun(stopped, after).1);
    }
  }

  lemma RepeatedMatters(old_: seq<string>, new_: seq<string>, missing: seq<string>)
    ensures old_ + missing == old_ + new_ <==> missing == new_
  {
    if old_ + missing == old_ + new_ {
      CancelPrefix(old_, missing, new_);
    }
  }

  /** A byte that is no UTF-8 takes three bytes in memory, so the checkpoint can fall into an earlier line. */
  lemma LossyTailRepeatsALine()
    ensures var bytes := [0x78, LINE_FEED, 0xFF];
            var (stopped, lines) := PollStep(Watch(0, ""), Some(bytes));
            && lines == ["x"]
            && CheckpointOffset(stopped) == 0
            && PollStep(Watch(CheckpointOffset(stopped), ""), Some(bytes)).1 == ["x"]
  {
    var bytes: seq<Byte> := [0x78, LINE_FEED, 0xFF];
    var text := ['x', '\n', REPLACEMENT];
    assert bytes[0..] == bytes && bytes[1..] == [LINE_FEED, 0xFF] && bytes[1..][1..] == [0xFF];
    assert [0xFF][1..] == [];
    assert Decode([0xFF]) == [REPLACEMENT];
    assert Decode([LINE_FEED, 0xFF]) == ['\n', REPLACEMENT];
    assert "" + Decode(bytes) == text;
    assert text == "x" + ['\n'] + [REPLACEMENT];
    FindInConcat("x", '\n', [REPLACEMENT]);
    assert text[..1] == "x" && text[2..] == [REPLACEMENT];
    NoLineFeedNoLines([REPLACEMENT]);
    assert ByteLength([REPLACEMENT]) == 3;
  }
}
