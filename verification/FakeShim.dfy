/**
 The scripted shim of the scenario tests: a queue of commands drives a queue of
 behaviours, a state and a counter of message ids.
 */
module FakeShim {
  import opened Common
  import Decimal

  // ---- protocol ------------------------------------------------------------------

  datatype ShimState = Starting | Idle | Working | Dead | OutOfContext

  datatype Command =
    | SendMessage(from: string, body: string, messageId: Option<string>)
    | CaptureScreen(lastLines: Option<nat>)
    | GetState
    | Resize(rows: nat, cols: nat)
    | Shutdown(timeoutSecs: nat)
    | Kill
    | Ping

  datatype Event =
    | StateChanged(from: ShimState, to: ShimState, summary: string)
    | MessageDelivered(id: string)
    | Completion(messageId: Option<string>, response: string, lastLines: string)
    | Died(exitCode: Option<int>, lastLines: string)
    | ContextExhausted(message: string, lastLines: string)
    | State(state: ShimState, sinceSecs: nat)
    | Pong
    | Error(command: string, reason: string)
    /** The events that only a script can play. */
    | Other(kind: string, detail: string)

  datatype File = File(path: string, content: string)

  datatype Behavior =
    | CompleteWith(response: string, files: seq<File>)
    | ErrorOut(command: string, reason: string)
    | ExhaustContext(message: string)
    | Silent
    | NarrationOnly(response: string)
    | NarrationFirstThenClean(cleanResponse: string, cleanFiles: seq<File>)
    | Script(events: seq<Event>)
    | Once(inner: Behavior)

  /** A command in the channel, and whether a commit of files would succeed while it is handled. */
  datatype Inbound = Inbound(command: Command, commitOk: bool)

  datatype Shim = Shim(name: string, behaviors: seq<Behavior>, default: Option<Behavior>, handled: seq<Command>,
                       state: ShimState, messageSeq: nat)

  // ---- one command ---------------------------------------------------------------

  function MessageId(name: string, n: nat): string {
    name + "-msg-" + Decimal.Print(n)
  }

  predicate IsInfrastructure(c: Command) {
    c.Ping? || c.GetState? || c.Resize? || c.Shutdown? || c.Kill?
  }

  function Infrastructure(s: Shim, c: Command): (Shim, seq<Event>)
    requires IsInfrastructure(c)
  {
    match c
    case Ping => (s, [Pong])
    case GetState => (s, [State(s.state, 0)])
    case Resize(_, _) => (s, [])
    case _ => (s.(state := Dead), [Died(Some(0), "")])
  }

  /** The four events of a message that is worked on and completed. */
  function Exchange(from: ShimState, id: string, started: string, finished: string, response: string): seq<Event> {
    [StateChanged(from, Working, started), MessageDelivered(id), StateChanged(Working, Idle, finished),
     Completion(Some(id), response, "")]
  }

  datatype CommitError = CommitFailed

  function Apply(s: Shim, b: Behavior, commitOk: bool): (Shim, Result<seq<Event>, CommitError>)
    decreases b
  {
    match b
    case CompleteWith(response, files) =>
      if files != [] && !commitOk then (s, Err(CommitFailed))
      else
        var id := MessageId(s.name, s.messageSeq + 1);
        (s.(state := Idle, messageSeq := s.messageSeq + 1),
         Ok(Exchange(s.state, id, "fake_shim: started working", "fake_shim: finished", response)))
    case NarrationOnly(response) => Narrate(s, response)
    case NarrationFirstThenClean(response, files) =>
      Narrate(s.(behaviors := [CompleteWith(response, files)] + s.behaviors), "narration-first")
    case ErrorOut(command, reason) =>
      (s, Ok([StateChanged(s.state, Idle, "fake_shim: error"), Error(command, reason)]))
    case ExhaustContext(message) => (s.(state := OutOfContext), Ok([ContextExhausted(message, "")]))
    case Silent => (s, Ok([]))
    case Script(events) => (s, Ok(events))
    case Once(inner) => Apply(s, inner, commitOk)
  }

  function Narrate(s: Shim, response: string): (Shim, Result<seq<Event>, CommitError>) {
    var id := MessageId(s.name, s.messageSeq + 1);
    (s.(state := Idle, messageSeq := s.messageSeq + 1),
     Ok(Exchange(s.state, id, "fake_shim: narration-only pass", "fake_shim: narration-only done", response)))
  }

  /** The next queued behaviour, else the default. */
  function NextBehavior(s: Shim): (Shim, Option<Behavior>) {
    if s.behaviors != [] then (s.(behaviors := s.behaviors[1..]), Some(s.behaviors[0])) else (s, s.default)
  }

  function Step(s: Shim, m: Inbound): (Shim, Result<seq<Event>, CommitError>) {
    var noted := s.(handled := s.handled + [m.command]);
    if IsInfrastructure(m.command) then
      var (after, events) := Infrastructure(noted, m.command);
      (after, Ok(events))
    else
      var (rest, b) := NextBehavior(noted);
      match b
      case None => (rest, Ok([]))
      case Some(behavior) => Apply(rest, behavior, m.commitOk)
  }

  // ---- a whole channel -----------------------------------------------------------

  /** `sent` has gone out to the daemon; `returned` is what the call gives back. */
  datatype Drained = Drained(shim: Shim, unread: seq<Inbound>, sent: seq<Event>, failed: bool)

  function Drain(s: Shim, inbox: seq<Inbound>): Drained
    decreases |inbox|
  {
    if inbox == [] then Drained(s, [], [], false)
    else
      var (next, r) := Step(s, inbox[0]);
      match r
      case Err(_) => Drained(next, inbox[1..], [], true)
      case Ok(events) =>
        var rest := Drain(next, inbox[1..]);
        rest.(sent := events + rest.sent)
  }

  class FakeShim {
    const name: string
    var behaviors: seq<Behavior>
    var default: Option<Behavior>
    var handled: seq<Command>
    var state: ShimState
    var messageSeq: nat
    /** The socket: commands not yet received, and events sent. */
    var inbox: seq<Inbound>
    var outbox: seq<Event>

    constructor (name: string)
      ensures View() == Shim(name, [], None, [], Idle, 0) && inbox == [] && outbox == []
    {
      this.name := name;
      behaviors, default, handled, state, messageSeq, inbox, outbox := [], None, [], Idle, 0, [], [];
    }

    ghost function View(): Shim
      reads this
    {
      Shim(name, behaviors, default, handled, state, messageSeq)
    }

    method Queue(b: Behavior)
      modifies this`behaviors
      ensures behaviors == old(behaviors) + [b]
    {
      behaviors := behaviors + [b];
    }

    method SetDefault(b: Behavior)
      modifies this`default
      ensures default == Some(b)
    {
      default := Some(b);
    }

    method NextMessageId() returns (id: string)
      modifies this`messageSeq
      ensures messageSeq == old(messageSeq) + 1 && id == MessageId(name, messageSeq)
    {
      messageSeq := messageSeq + 1;
      id := MessageId(name, messageSeq);
    }

    method HandleInfrastructureCommand(c: Command) returns (events: Option<seq<Event>>)
      modifies this`state
      ensures events.Some? <==> IsInfrastructure(c)
      ensures events.None? ==> View() == old(View())
      ensures events.Some? ==> (View(), events.value) == Infrastructure(old(View()), c)
    {
      match c {
        case Ping =>
          return Some([Pong]);
        case GetState =>
          return Some([State(state, 0)]);
        case Resize(_, _) =>
          return Some([]);
        case Shutdown(_) =>
          state := Dead;
          return Some([Died(Some(0), "")]);
        case Kill =>
          state := Dead;
          return Some([Died(Some(0), "")]);
        case _ =>
          return None;
      }
    }

    method ApplyBehavior(b: Behavior, commitOk: bool) returns (r: Result<seq<Event>, CommitError>)
      modifies this`behaviors, this`state, this`messageSeq
      ensures (View(), r) == Apply(old(View()), b, commitOk)
      decreases b
    {
      match b {
        case CompleteWith(response, files) =>
          if files != [] && !commitOk {
            return Err(CommitFailed);
          }
          var id := NextMessageId();
          r := Ok(Exchange(state, id, "fake_shim: started working", "fake_shim: finished", response));
          state := Idle;
        case NarrationOnly(response) =>
          r := NarrationPass(response);
        case NarrationFirstThenClean(response, files) =>
          behaviors := [CompleteWith(response, files)] + behaviors;
          r := NarrationPass("narration-first");
        case ErrorOut(command, reason) =>
          r := Ok([StateChanged(state, Idle, "fake_shim: error"), Error(command, reason)]);
        case ExhaustContext(message) =>
          state := OutOfContext;
          r := Ok([ContextExhausted(message, "")]);
        case Silent =>
          r := Ok([]);
        case Script(events) =>
          r := Ok(events);
        case Once(inner) =>
          r := ApplyBehavior(inner, commitOk);
      }
    }

    method NarrationPass(response: string) returns (r: Result<seq<Event>, CommitError>)
      modifies this`state, this`messageSeq
      ensures (View(), r) == Narrate(old(View()), response)
    {
      var id := NextMessageId();
      r := Ok(Exchange(state, id, "fake_shim: narration-only pass", "fake_shim: narration-only done", response));
      state := Idle;
    }

    /** Receives until the channel is empty, answering each command; a failing commit ends the call. */
    method ProcessInbound() returns (r: Result<seq<Event>, CommitError>)
      modifies this
      ensures var d := Drain(old(View()), old(inbox));
              && View() == d.shim && inbox == d.unread && outbox == old(outbox) + d.sent
              && r == if d.failed then Err(CommitFailed) else Ok(d.sent)
    {
      var emitted: seq<Event> := [];
      ghost var all := Drain(View(), inbox);
      while |inbox| > 0
        invariant outbox == old(outbox) + emitted
        invariant Continues(all, emitted, Drain(View(), inbox))
        decreases |inbox|
      {
        var m := inbox[0];
        ghost var before, waiting := View(), inbox;
        inbox := inbox[1..];
        var events := Respond(m);
        DrainUnfolds(before, waiting);
        if events.Err? {
          return Err(CommitFailed);
        }
        ContinuesFurther(all, emitted, events.value, Drain(View(), inbox));
        outbox := outbox + events.value;
        emitted := emitted + events.value;
      }
      assert inbox == [] && emitted + [] == emitted;
      return Ok(emitted);
    }

    /** One turn of the loop: note the command, answer it in band or by the next behaviour. */
    method Respond(m: Inbound) returns (r: Result<seq<Event>, CommitError>)
      modifies this`handled, this`behaviors, this`state, this`messageSeq
      ensures (View(), r) == Step(old(View()), m)
    {
      handled := handled + [m.command];
      var answer := HandleInfrastructureCommand(m.command);
      if answer.Some? {
        return Ok(answer.value);
      }
      var b := default;
      if |behaviors| > 0 {
        b := Some(behaviors[0]);
        behaviors := behaviors[1..];
      }
      if b.None? {
        return Ok([]);
      }
      r := ApplyBehavior(b.value, m.commitOk);
    }
  }

  /** `rest` is what is left of `all` after `emitted`. */
  predicate Continues(all: Drained, emitted: seq<Event>, rest: Drained) {
    all.shim == rest.shim && all.unread == rest.unread && all.failed == rest.failed && all.sent == emitted + rest.sent
  }

  lemma DrainUnfolds(s: Shim, inbox: seq<Inbound>)
    requires inbox != []
    ensures var (next, r) := Step(s, inbox[0]);
            match r
            case Err(_) => Drain(s, inbox) == Drained(next, inbox[1..], [], true)
            case Ok(events) =>
              var rest := Drain(next, inbox[1..]); Drain(s, inbox) == rest.(sent := events + rest.sent)
  {
  }

  lemma ContinuesFurther(all: Drained, emitted: seq<Event>, events: seq<Event>, rest: Drained)
    requires Continues(all, emitted, rest.(sent := events + rest.sent))
    ensures Continues(all, emitted + events, rest)
  {
  }

  // ---- batches -------------------------------------------------------------------

  /** Draining two batches one after the other is draining them at once, unless a commit fails in the first. */
  lemma {:induction false} DrainOfConcat(s: Shim, a: seq<Inbound>, b: seq<Inbound>)
    ensures var first := Drain(s, a);
            Drain(s, a + b) ==
              if first.failed then first.(unread := first.unread + b)
              else var second := Drain(first.shim, b); second.(sent := first.sent + second.sent)
    decreases |a|
  {
    if a == [] {
      assert a + b == b;
      assert [] + Drain(s, b).sent == Drain(s, b).sent;
    } else {
      assert (a + b)[0] == a[0] && (a + b)[1..] == a[1..] + b;
      var (next, r) := Step(s, a[0]);
      if r.Ok? {
        DrainOfConcat(next, a[1..], b);
        var x, y := Drain(next, a[1..]).sent, Drain(Drain(next, a[1..]).shim, b).sent;
        assert r.value + (x + y) == (r.value + x) + y;
      }
    }
  }

  function Flatten(batches: seq<seq<Inbound>>): seq<Inbound> {
    if batches == [] then [] else batches[0] + Flatten(batches[1..])
  }

  /** One call per batch. */
  function DrainBatches(s: Shim, batches: seq<seq<Inbound>>): Drained
    decreases |batches|
  {
    if batches == [] then Drained(s, [], [], false)
    else
      var first := Drain(s, batches[0]);
      if first.failed then first.(unread := first.unread + Flatten(batches[1..]))
      else
        var rest := DrainBatches(first.shim, batches[1..]);
        rest.(sent := first.sent + rest.sent)
  }

  /** However the commands are spread over calls, the events, the state, the queue and the history are the same. */
  lemma {:induction false} BatchingDoesNotMatter(s: Shim, batches: seq<seq<Inbound>>)
    ensures DrainBatches(s, batches) == Drain(s, Flatten(batches))
    decreases |batches|
  {
    if batches != [] {
      DrainOfConcat(s, batches[0], Flatten(batches[1..]));
      BatchingDoesNotMatter(Drain(s, batches[0]).shim, batches[1..]);
    }
  }

  // ---- message ids ---------------------------------------------------------------

  /** A script that plays no deliveries or completions of its own; every other behaviour. */
  predicate Plain(b: Behavior) {
    match b
    case Script(events) => forall e :: e in events ==> !e.MessageDelivered? && !e.Completion?
    case Once(inner) => Plain(inner)
    case _ => true
  }

  predicate AllPlain(s: Shim) {
    (forall b :: b in s.behaviors ==> Plain(b)) && (s.default.Some? ==> Plain(s.default.value))
  }

  /** The message that is delivered and not yet completed after the events, or `None` if they are out of order. */
  function Pending(events: seq<Event>, open: Option<string>): Option<Option<string>> {
    if events == [] then Some(open)
    else match events[0]
      case MessageDelivered(id) => if open.None? then Pending(events[1..], Some(id)) else None
      case Completion(id, _, _) => if open.Some? && id == open then Pending(events[1..], None) else None
      case _ => Pending(events[1..], open)
  }

  /** Every delivery is followed by one completion of the same message before the next delivery. */
  predicate Paired(events: seq<Event>) {
    Pending(events, None) == Some(None)
  }

  function Deliveries(events: seq<Event>): seq<string> {
    if events == [] then []
    else (if events[0].MessageDelivered? then [events[0].id] else []) + Deliveries(events[1..])
  }

  /** The ids numbered `from + 1` to `to`. */
  function Ids(name: string, from: nat, to: nat): seq<string>
    requires from <= to
  {
    seq(to - from, i requires 0 <= i < to - from => MessageId(name, from + 1 + i))
  }

  lemma {:induction false} DeliveriesOfConcat(a: seq<Event>, b: seq<Event>)
    ensures Deliveries(a + b) == Deliveries(a) + Deliveries(b)
  {
    if a == [] {
      assert a + b == b;
    } else {
      assert (a + b)[1..] == a[1..] + b;
      DeliveriesOfConcat(a[1..], b);
      var first := if a[0].MessageDelivered? then [a[0].id] else [];
      var x, y := Deliveries(a[1..]), Deliveries(b);
      assert (first + x) + y == first + (x + y);
    }
  }

  lemma {:induction false} PendingOfConcat(a: seq<Event>, b: seq<Event>, open: Option<string>)
    requires Pending(a, open).Some?
    ensures Pending(a + b, open) == Pending(b, Pending(a, open).value)
  {
    if a == [] {
      assert a + b == b;
    } else {
      assert (a + b)[1..] == a[1..] + b;
      match a[0]
      case MessageDelivered(id) => PendingOfConcat(a[1..], b, Some(id));
      case Completion(_, _, _) => PendingOfConcat(a[1..], b, None);
      case _ => PendingOfConcat(a[1..], b, open);
    }
  }

  /** Events without messages. */
  lemma {:induction false} QuietEvents(events: seq<Event>)
    requires forall e :: e in events ==> !e.MessageDelivered? && !e.Completion?
    ensures Paired(events) && Deliveries(events) == []
  {
    if events != [] {
      assert !events[0].MessageDelivered? && !events[0].Completion?;
      QuietEvents(events[1..]);
    }
  }

  lemma ExchangeFacts(from: ShimState, id: string, started: string, finished: string, response: string)
    ensures var events := Exchange(from, id, started, finished, response);
            Paired(events) && Deliveries(events) == [id]
  {
    var events := Exchange(from, id, started, finished, response);
    var e1, e2, e3 := events[1..], events[1..][1..], events[1..][1..][1..];
    assert e1 == [events[1], events[2], events[3]] && e2 == [events[2], events[3]] && e3 == [events[3]];
    assert e3[1..] == [];
    assert Pending(e3, Some(id)) == Some(None) && Pending(e2, Some(id)) == Some(None)
           && Pending(e1, None) == Some(None);
    assert Deliveries(e3) == [] && Deliveries(e2) == [] && Deliveries(e1) == [id];
  }

  /** What a step does to the counter, and the messages in its events. */
  predicate CountsMessages(s: Shim, after: Shim, events: seq<Event>) {
    && after.name == s.name && s.messageSeq <= after.messageSeq
    && Paired(events) && Deliveries(events) == Ids(s.name, s.messageSeq, after.messageSeq)
  }

  lemma {:induction false} ApplyCounts(s: Shim, b: Behavior, commitOk: bool)
    requires AllPlain(s) && Plain(b)
    ensures var (after, r) := Apply(s, b, commitOk);
            AllPlain(after) && (if r.Ok? then CountsMessages(s, after, r.value) else after == s)
    decreases b
  {
    var id := MessageId(s.name, s.messageSeq + 1);
    assert Ids(s.name, s.messageSeq, s.messageSeq + 1) == [id];
    assert Ids(s.name, s.messageSeq, s.messageSeq) == [];
    match b
    case CompleteWith(response, _) =>
      ExchangeFacts(s.state, id, "fake_shim: started working", "fake_shim: finished", response);
    case NarrationOnly(response) =>
      ExchangeFacts(s.state, id, "fake_shim: narration-only pass", "fake_shim: narration-only done", response);
    case NarrationFirstThenClean(_, _) =>
      ExchangeFacts(s.state, id, "fake_shim: narration-only pass", "fake_shim: narration-only done",
                        "narration-first");
    case Once(inner) => ApplyCounts(s, inner, commitOk);
    case _ => QuietEvents(Apply(s, b, commitOk).1.value);
  }

  lemma StepCounts(s: Shim, m: Inbound)
    requires AllPlain(s)
    ensures var (after, r) := Step(s, m);
            && AllPlain(after) && after.name == s.name
            && (if r.Ok? then CountsMessages(s, after, r.value) else after.messageSeq == s.messageSeq)
  {
    var noted := s.(handled := s.handled + [m.command]);
    assert Ids(s.name, s.messageSeq, s.messageSeq) == [];
    if IsInfrastructure(m.command) {
      QuietEvents(Infrastructure(noted, m.command).1);
    } else {
      var (rest, b) := NextBehavior(noted);
      if b.Some? {
        assert s.behaviors != [] ==> s.behaviors[0] in s.behaviors;
        ApplyCounts(rest, b.value, m.commitOk);
      } else {
        QuietEvents([]);
      }
    }
  }

  lemma CountsTransitive(s: Shim, mid: Shim, end: Shim, a: seq<Event>, b: seq<Event>)
    requires CountsMessages(s, mid, a) && CountsMessages(mid, end, b)
    ensures CountsMessages(s, end, a + b)
  {
    DeliveriesOfConcat(a, b);
    PendingOfConcat(a, b, None);
    assert Ids(s.name, s.messageSeq, end.messageSeq) ==
           Ids(s.name, s.messageSeq, mid.messageSeq) + Ids(s.name, mid.messageSeq, end.messageSeq);
  }

  /**
   Over any run without message-forging scripts, the delivered ids are the
   consecutive numbers of the counter, and deliveries and completions pair up.
   */
  lemma {:induction false} RunCountsMessages(s: Shim, inbox: seq<Inbound>)
    requires AllPlain(s)
    ensures CountsMessages(s, Drain(s, inbox).shim, Drain(s, inbox).sent)
    decreases |inbox|
  {
    assert Ids(s.name, s.messageSeq, s.messageSeq) == [];
    if inbox != [] {
      var (next, r) := Step(s, inbox[0]);
      StepCounts(s, inbox[0]);
      if r.Ok? {
        RunCountsMessages(next, inbox[1..]);
        CountsTransitive(s, next, Drain(next, inbox[1..]).shim, r.value, Drain(next, inbox[1..]).sent);
      }
    }
  }

  /** No message id is delivered twice. */
  lemma DeliveredIdsNeverRepeat(s: Shim, inbox: seq<Inbound>, i: nat, j: nat)
    requires AllPlain(s)
    requires i < j < |Deliveries(Drain(s, inbox).sent)|
    ensures Deliveries(Drain(s, inbox).sent)[i] != Deliveries(Drain(s, inbox).sent)[j]
  {
    RunCountsMessages(s, inbox);
    var m, n := s.messageSeq + 1 + i, s.messageSeq + 1 + j;
    if MessageId(s.name, m) == MessageId(s.name, n) {
      var prefix := s.name + "-msg-";
      assert MessageId(s.name, m)[|prefix|..] == Decimal.Print(m);
      assert MessageId(s.name, n)[|prefix|..] == Decimal.Print(n);
      Decimal.PrintInjective(m, n);
    }
  }

  // ---- infrastructure commands ---------------------------------------------------

  /** Same script, same counter; the state and the history may differ. */
  predicate SameScript(s: Shim, t: Shim) {
    s.name == t.name && s.behaviors == t.behaviors && s.default == t.default && s.messageSeq == t.messageSeq
  }

  /** The answers to messages: ids and responses in order. */
  function Answers(events: seq<Event>): seq<(Option<string>, string)> {
    if events == [] then []
    else AnswerOf(events[0]) + Answers(events[1..])
  }

  function AnswerOf(e: Event): seq<(Option<string>, string)> {
    if e.Completion? then [(e.messageId, e.response)] else []
  }

  function Messages(inbox: seq<Inbound>): seq<Inbound> {
    if inbox == [] then []
    else (if IsInfrastructure(inbox[0].command) then [] else [inbox[0]]) + Messages(inbox[1..])
  }

  lemma {:induction false} AnswersOfConcat(a: seq<Event>, b: seq<Event>)
    ensures Answers(a + b) == Answers(a) + Answers(b)
  {
    if a == [] {
      assert a + b == b;
    } else {
      assert (a + b)[1..] == a[1..] + b;
      AnswersOfConcat(a[1..], b);
      var first, x, y := AnswerOf(a[0]), Answers(a[1..]), Answers(b);
      assert (first + x) + y == first + (x + y);
    }
  }

  lemma AnswersOfExchange(from: ShimState, id: string, started: string, finished: string, response: string)
    ensures Answers(Exchange(from, id, started, finished, response)) == [(Some(id), response)]
  {
    var events := Exchange(from, id, started, finished, response);
    var e1, e2, e3 := events[1..], events[1..][1..], events[1..][1..][1..];
    assert e1 == [events[1], events[2], events[3]] && e2 == [events[2], events[3]] && e3 == [events[3]];
    assert e3[1..] == [];
    assert Answers(e3) == [(Some(id), response)] && Answers(e2) == [(Some(id), response)];
    assert Answers(e1) == [(Some(id), response)];
  }

  lemma AnswersOfTwo(e: Event, f: Event)
    requires !e.Completion? && !f.Completion?
    ensures Answers([e, f]) == [] && Answers([e]) == []
  {
    assert [e, f][1..] == [f] && [f][1..] == [] && [e][1..] == [];
    assert Answers([f]) == [];
  }

  lemma {:induction false} ApplySameScript(s: Shim, t: Shim, b: Behavior, commitOk: bool)
    requires SameScript(s, t)
    ensures var (s', r) := Apply(s, b, commitOk);
            var (t', q) := Apply(t, b, commitOk);
            SameScript(s', t') && r.Ok? == q.Ok? && (r.Ok? ==> Answers(r.value) == Answers(q.value))
    decreases b
  {
    var id := MessageId(s.name, s.messageSeq + 1);
    match b
    case CompleteWith(response, _) =>
      AnswersOfExchange(s.state, id, "fake_shim: started working", "fake_shim: finished", response);
      AnswersOfExchange(t.state, id, "fake_shim: started working", "fake_shim: finished", response);
    case NarrationOnly(response) =>
      AnswersOfExchange(s.state, id, "fake_shim: narration-only pass", "fake_shim: narration-only done", response);
      AnswersOfExchange(t.state, id, "fake_shim: narration-only pass", "fake_shim: narration-only done", response);
    case NarrationFirstThenClean(_, _) =>
      AnswersOfExchange(s.state, id, "fake_shim: narration-only pass", "fake_shim: narration-only done",
                        "narration-first");
      AnswersOfExchange(t.state, id, "fake_shim: narration-only pass", "fake_shim: narration-only done",
                        "narration-first");
    case ErrorOut(command, reason) =>
      AnswersOfTwo(StateChanged(s.state, Idle, "fake_shim: error"), Error(command, reason));
      AnswersOfTwo(StateChanged(t.state, Idle, "fake_shim: error"), Error(command, reason));
    case Once(inner) => ApplySameScript(s, t, inner, commitOk);
    case _ =>
  }

  lemma InfrastructureKeepsScript(s: Shim, m: Inbound)
    requires IsInfrastructure(m.command)
    ensures var (after, r) := Step(s, m); SameScript(s, after) && r.Ok? && Answers(r.value) == []
  {
  }

  lemma StepSameScript(s: Shim, t: Shim, m: Inbound)
    requires SameScript(s, t) && !IsInfrastructure(m.command)
    ensures var (s', r) := Step(s, m);
            var (t', q) := Step(t, m);
            SameScript(s', t') && r.Ok? == q.Ok? && (r.Ok? ==> Answers(r.value) == Answers(q.value))
  {
    var (a, b) := NextBehavior(s.(handled := s.handled + [m.command]));
    var (c, d) := NextBehavior(t.(handled := t.handled + [m.command]));
    assert SameScript(a, c) && b == d;
    if b.Some? {
      ApplySameScript(a, c, b.value, m.commitOk);
    }
  }

  /**
   Infrastructure commands use up nothing: dropping them all from the channel
   leaves the same answers, the same queue and the same counter.
   */
  lemma {:induction false} InfrastructureIsTransparent(s: Shim, t: Shim, inbox: seq<Inbound>)
    requires SameScript(s, t)
    ensures var d, e := Drain(s, inbox), Drain(t, Messages(inbox));
            SameScript(d.shim, e.shim) && d.failed == e.failed && Answers(d.sent) == Answers(e.sent)
            && Messages(d.unread) == e.unread
    decreases |inbox|
  {
    if inbox != [] {
      var m := inbox[0];
      var (next, r) := Step(s, m);
      if IsInfrastructure(m.command) {
        InfrastructureKeepsScript(s, m);
        InfrastructureIsTransparent(next, t, inbox[1..]);
        assert Messages(inbox) == Messages(inbox[1..]);
        AnswersOfConcat(r.value, Drain(next, inbox[1..]).sent);
      } else {
        var (next', q) := Step(t, m);
        StepSameScript(s, t, m);
        var rest := Messages(inbox[1..]);
        assert Messages(inbox)[0] == m && Messages(inbox)[1..] == rest;
        if r.Ok? {
          InfrastructureIsTransparent(next, next', inbox[1..]);
          AnswersOfConcat(r.value, Drain(next, inbox[1..]).sent);
          AnswersOfConcat(q.value, Drain(next', rest).sent);
        }
      }
    }
  }

  // ---- narration first, then clean -----------------------------------------------

  /** The behaviour inside any nesting of `Once`. */
  function Unwrapped(b: Behavior): Behavior {
    match b
    case Once(inner) => Unwrapped(inner)
    case _ => b
  }

  lemma {:induction false} ApplyUnwrapped(s: Shim, b: Behavior, commitOk: bool)
    ensures Apply(s, b, commitOk) == Apply(s, Unwrapped(b), commitOk)
    decreases b
  {
    if b.Once? {
      ApplyUnwrapped(s, b.inner, commitOk);
    }
  }

  /** What may happen between two messages. */
  datatype Interlude = Enqueue(b: Behavior) | ChangeDefault(b: Behavior) | Infra(m: Inbound)

  function AfterInterludes(s: Shim, between: seq<Interlude>): Shim
    decreases |between|
  {
    if between == [] then s
    else
      var next := match between[0]
        case Enqueue(b) => s.(behaviors := s.behaviors + [b])
        case ChangeDefault(b) => s.(default := Some(b))
        case Infra(m) => if IsInfrastructure(m.command) then Step(s, m).0 else s;
      AfterInterludes(next, between[1..])
  }

  lemma {:induction false} InterludesKeepFront(s: Shim, between: seq<Interlude>)
    requires s.behaviors != []
    ensures var t := AfterInterludes(s, between);
            t.behaviors != [] && t.behaviors[0] == s.behaviors[0] && t.name == s.name
    decreases |between|
  {
    if between != [] {
      match between[0]
      case Enqueue(b) => InterludesKeepFront(s.(behaviors := s.behaviors + [b]), between[1..]);
      case ChangeDefault(b) => InterludesKeepFront(s.(default := Some(b)), between[1..]);
      case Infra(m) =>
        if IsInfrastructure(m.command) {
          InfrastructureKeepsScript(s, m);
          InterludesKeepFront(Step(s, m).0, between[1..]);
        } else {
          InterludesKeepFront(s, between[1..]);
        }
    }
  }

  lemma NarrationStep(s: Shim, m: Inbound)
    requires !IsInfrastructure(m.command)
    requires NextBehavior(s).1.Some? && Unwrapped(NextBehavior(s).1.value).NarrationFirstThenClean?
    ensures var narration := Unwrapped(NextBehavior(s).1.value);
            var (mid, r) := Step(s, m);
            && r.Ok? && Answers(r.value) == [(Some(MessageId(s.name, s.messageSeq + 1)), "narration-first")]
            && mid.behaviors != [] && mid.behaviors[0] == CompleteWith(narration.cleanResponse, narration.cleanFiles)
  {
    var (rest, b) := NextBehavior(s.(handled := s.handled + [m.command]));
    ApplyUnwrapped(rest, b.value, m.commitOk);
    AnswersOfExchange(s.state, MessageId(s.name, s.messageSeq + 1), "fake_shim: narration-only pass",
                      "fake_shim: narration-only done", "narration-first");
  }

  /** A completion at the front of the queue answers, unless it has files and their commit fails. */
  predicate Completes(completion: Behavior, m: Inbound)
    requires completion.CompleteWith?
  {
    completion.files == [] || m.commitOk
  }

  lemma CompleteStep(s: Shim, m: Inbound)
    requires !IsInfrastructure(m.command)
    requires s.behaviors != [] && s.behaviors[0].CompleteWith?
    ensures var (after, r) := Step(s, m);
            && after.behaviors == s.behaviors[1..]
            && (r.Ok? <==> Completes(s.behaviors[0], m))
            && (r.Ok? ==>
                  && after.state == Idle && after.messageSeq == s.messageSeq + 1
                  && Answers(r.value) == [(Some(MessageId(s.name, s.messageSeq + 1)), s.behaviors[0].response)])
            && (r.Err? ==> after.state == s.state && after.messageSeq == s.messageSeq)
  {
    AnswersOfExchange(s.state, MessageId(s.name, s.messageSeq + 1), "fake_shim: started working", "fake_shim: finished",
                      s.behaviors[0].response);
  }

  /**
   Once a narration-first behaviour has answered a message, the next message gets the
   clean completion, whatever is queued, set as default or asked in between, exactly
   when there are no files to commit or their commit succeeds.  Otherwise the call
   fails, and the completion is gone from the queue without having used a message id.
   */
  lemma CleanCompletionFollowsNarration(s: Shim, first: Inbound, between: seq<Interlude>, second: Inbound)
    requires !IsInfrastructure(first.command) && !IsInfrastructure(second.command)
    requires NextBehavior(s).1.Some? && Unwrapped(NextBehavior(s).1.value).NarrationFirstThenClean?
    ensures var narration := Unwrapped(NextBehavior(s).1.value);
            var (mid, r) := Step(s, first);
            var waiting := AfterInterludes(mid, between);
            var (after, q) := Step(waiting, second);
            && r.Ok? && Answers(r.value) == [(Some(MessageId(s.name, s.messageSeq + 1)), "narration-first")]
            && (q.Ok? <==> narration.cleanFiles == [] || second.commitOk)
            && (q.Ok? ==> Answers(q.value) == [(Some(MessageId(waiting.name, waiting.messageSeq + 1)),
                                                narration.cleanResponse)])
            && waiting.behaviors != [] && after.behaviors == waiting.behaviors[1..]
            && waiting.behaviors[0] == CompleteWith(narration.cleanResponse, narration.cleanFiles)
            && (q.Err? ==> after.messageSeq == waiting.messageSeq && after.state == waiting.state)
  {
    var mid := Step(s, first).0;
    NarrationStep(s, first);
    InterludesKeepFront(mid, between);
    CompleteStep(AfterInterludes(mid, between), second);
  }

  /** A killed shim still answers and is idle again, unless a commit fails: death is a state like any other. */
  lemma DeathIsNotFinal(s: Shim, m: Inbound)
    requires !IsInfrastructure(m.command)
    requires s.behaviors != [] && s.behaviors[0].CompleteWith?
    ensures var dead := Step(s, Inbound(Kill, true)).0;
            var (after, r) := Step(dead, m);
            && dead.state == Dead
            && (after.state == Idle <==> Completes(s.behaviors[0], m))
            && (r.Ok? <==> Completes(s.behaviors[0], m))
            && (r.Ok? ==> Answers(r.value) == [(Some(MessageId(s.name, s.messageSeq + 1)), s.behaviors[0].response)])
  {
    CompleteStep(Step(s, Inbound(Kill, true)).0, m);
  }
}
