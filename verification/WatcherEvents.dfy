/** What the watcher makes of coloured lines, and of a file that shrinks. */
module WatcherEvents {
  import opened Common
  import opened Text
  import opened Utf8
  import opened AnsiStrip
  import opened EventWatcher

  /** A line of the terminal as text and escape sequences. */
  type Line = seq<Segment>

  predicate ValidLine(line: Line) {
    (forall g :: g in line ==> ValidSegment(g)) && '\n' !in RenderAll(line)
  }

  /** What a reader of the terminal sees of the line, classified; nothing where it sees only blanks. */
  function SeenEvent(classify: Classifier, line: Line): seq<PipeEvent> {
    var visible := Trim(PlainText(line));
    if visible == "" then []
    else match classify(visible)
      case Some(event) => [event]
      case None => []
  }

  function SeenEvents(classify: Classifier, lines: seq<Line>): seq<PipeEvent> {
    if lines == [] then [] else SeenEvent(classify, lines[0]) + SeenEvents(classify, lines[1..])
  }

  function Rendered(lines: seq<Line>): seq<string> {
    if lines == [] then [] else [RenderAll(lines[0])] + Rendered(lines[1..])
  }

  /** The event of a rendered line is that of its text: escape sequences never reach the classifier. */
  lemma EventOfRenderedLine(classify: Classifier, line: Line)
    requires forall g :: g in line ==> ValidSegment(g)
    ensures OneEvent(Extraction(classify), RenderAll(line)) == SeenEvent(classify, line)
  {
    StripRecoversText(line);
  }

  lemma {:induction false} EventsOfRendered(classify: Classifier, lines: seq<Line>)
    requires forall line :: line in lines ==> ValidLine(line)
    ensures EventsOf(Extraction(classify), Rendered(lines)) == SeenEvents(classify, lines)
  {
    if lines != [] {
      assert lines[0] in lines;
      EventOfRenderedLine(classify, lines[0]);
      EventsOfRendered(classify, lines[1..]);
    }
  }

  lemma {:induction false} LinesOfRendered(lines: seq<Line>, rest: string)
    requires forall line :: line in lines ==> ValidLine(line)
    requires '\n' !in rest
    ensures CompleteLines(Unlines(Rendered(lines)) + rest) == Rendered(lines)
    ensures Remainder(Unlines(Rendered(lines)) + rest) == rest
  {
    if lines == [] {
      assert "" + rest == rest;
      NoLineFeedNoLines(rest);
    } else {
      var first, more := RenderAll(lines[0]), Unlines(Rendered(lines[1..])) + rest;
      var text := Unlines(Rendered(lines)) + rest;
      assert lines[0] in lines && text == first + ['\n'] + more;
      LinesOfRendered(lines[1..], rest);
      FindInConcat(first, '\n', more);
      assert text[..|first|] == first && text[|first| + 1..] == more;
      FirstCompleteLine(text, |first|);
      RemainderAfterFirstLine(text, |first|);
    }
  }

  /**
   One poll of a file whose unread bytes, after what is in the buffer, spell coloured
   lines and an unfinished rest: the events are those of the visible texts, in order.
   */
  lemma PollSeesPlainText(classify: Classifier, w: Watch, content: seq<Byte>, lines: seq<Line>, rest: string)
    requires w.position <= |content| && '\n' !in w.lineBuffer && '\n' !in rest
    requires forall line :: line in lines ==> ValidLine(line)
    requires w.lineBuffer + Decode(content[w.position..]) == Unlines(Rendered(lines)) + rest
    ensures EventsOf(Extraction(classify), PollStep(w, Some(content)).1) == SeenEvents(classify, lines)
    ensures PollStep(w, Some(content)).0 == Watch(|content|, rest)
  {
    PollStepOfText(w, content, Unlines(Rendered(lines)) + rest);
    LinesOfRendered(lines, rest);
    EventsOfRendered(classify, lines);
  }

  /** A file that is shorter than what was read gives no line; reading goes on at its end, with the same buffer. */
  lemma ShrunkFileRestartsAtItsEnd(w: Watch, content: seq<Byte>, later: seq<Byte>)
    requires |content| < w.position && content <= later
    requires '\n' !in w.lineBuffer
    ensures var (shrunk, lines) := PollStep(w, Some(content));
            var text := w.lineBuffer + Decode(later[|content|..]);
            && lines == [] && shrunk == Watch(|content|, w.lineBuffer)
            && PollStep(shrunk, Some(later)) == (Watch(|later|, Remainder(text)), CompleteLines(text))
  {
    PollStepOfText(Watch(|content|, w.lineBuffer), later, w.lineBuffer + Decode(later[|content|..]));
  }
}
