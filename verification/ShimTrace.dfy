/** What the other end of the channel can know of the shim from the events it is sent. */
module ShimTrace {
  import opened Common
  import opened FakeShim

  // ---- the history -----------------------------------------------------------------

  function CommandsOf(inbox: seq<Inbound>): seq<Command> {
    seq(|inbox|, i requires 0 <= i < |inbox| => inbox[i].command)
  }

  lemma {:induction false} ApplyKeepsHistory(s: Shim, b: Behavior, commitOk: bool)
    ensures Apply(s, b, commitOk).0.handled == s.handled
    decreases b
  {
    if b.Once? {
      ApplyKeepsHistory(s, b.inner, commitOk);
    }
  }

  lemma StepKeepsHistory(s: Shim, m: Inbound)
    ensures Step(s, m).0.handled == s.handled + [m.command]
  {
    var (rest, b) := NextBehavior(s.(handled := s.handled + [m.command]));
    if b.Some? {
      ApplyKeepsHistory(rest, b.value, m.commitOk);
    }
  }

  lemma CommandsOfCons(m: Inbound, rest: seq<Inbound>)
    ensures CommandsOf([m] + rest) == [m.command] + CommandsOf(rest)
  {
  }

  lemma CommandsOfFirst(inbox: seq<Inbound>, n: nat)
    requires n < |inbox|
    ensures CommandsOf(inbox[..n + 1]) == [inbox[0].command] + CommandsOf(inbox[1..][..n])
  {
    assert inbox[..n + 1] == [inbox[0]] + inbox[1..][..n];
    CommandsOfCons(inbox[0], inbox[1..][..n]);
  }

  /** Every command received is noted in order, the one whose commit failed included; the others stay unread. */
  lemma {:induction false} HistoryIsWhatWasReceived(s: Shim, inbox: seq<Inbound>)
    ensures var d := Drain(s, inbox);
            && |d.unread| <= |inbox| && d.unread == inbox[|inbox| - |d.unread|..]
            && d.shim.handled == s.handled + CommandsOf(inbox[..|inbox| - |d.unread|])
            && (!d.failed ==> d.unread == [])
    decreases |inbox|
  {
    if inbox != [] {
      var m := inbox[0];
      StepKeepsHistory(s, m);
      var (next, r) := Step(s, m);
      DrainUnfolds(s, inbox);
      if r.Ok? {
        HistoryIsWhatWasReceived(next, inbox[1..]);
        var n := |inbox[1..]| - |Drain(next, inbox[1..]).unread|;
        CommandsOfFirst(inbox, n);
        ConcatAssociative(s.handled, [m.command], CommandsOf(inbox[1..][..n]));
      } else {
        CommandsOfFirst(inbox, 0);
        assert CommandsOf(inbox[..1]) == [m.command];
      }
    } else {
      assert s.handled + [] == s.handled;
    }
  }

  // ---- the state -------------------------------------------------------------------

  /** The state as the events tell it. */
  function Told(state: ShimState, events: seq<Event>): ShimState
    decreases |events|
  {
    if events == [] then state else Told(ToldBy(state, events[0]), events[1..])
  }

  function ToldBy(state: ShimState, e: Event): ShimState {
    match e
    case StateChanged(_, to, _) => to
    case Died(_, _) => Dead
    case ContextExhausted(_, _) => OutOfContext
    case _ => state
  }

  /** Each change starts from the state told so far, and each report of the state is that state. */
  predicate Coherent(state: ShimState, events: seq<Event>)
    decreases |events|
  {
    events != [] ==>
      && (events[0].StateChanged? ==> events[0].from == state)
      && (events[0].State? ==> events[0].state == state)
      && Coherent(ToldBy(state, events[0]), events[1..])
  }

  lemma {:induction false} ToldOfConcat(state: ShimState, a: seq<Event>, b: seq<Event>)
    ensures Told(state, a + b) == Told(Told(state, a), b)
    ensures Coherent(state, a + b) <==> Coherent(state, a) && Coherent(Told(state, a), b)
    decreases |a|
  {
    if a == [] {
      assert a + b == b;
    } else {
      assert (a + b)[1..] == a[1..] + b;
      ToldOfConcat(ToldBy(state, a[0]), a[1..], b);
    }
  }

  /** No scripts: those play any event, and no state follows them. */
  predicate Unscripted(b: Behavior) {
    !Unwrapped(b).Script?
  }

  predicate AllUnscripted(s: Shim) {
    (forall b :: b in s.behaviors ==> Unscripted(b)) && (s.default.Some? ==> Unscripted(s.default.value))
  }

  /** The next message is answered by an error while the shim is not idle. */
  predicate ErrsWhileNotIdle(s: Shim, m: Inbound) {
    && !IsInfrastructure(m.command) && s.state != Idle
    && NextBehavior(s).1.Some? && Unwrapped(NextBehavior(s).1.value).ErrorOut?
  }

  lemma ToldOfExchange(from: ShimState, id: string, started: string, finished: string, response: string)
    ensures var events := Exchange(from, id, started, finished, response);
            Told(from, events) == Idle && Coherent(from, events)
  {
    var events := Exchange(from, id, started, finished, response);
    var e1, e2, e3 := events[1..], events[1..][1..], events[1..][1..][1..];
    assert e1 == [events[1], events[2], events[3]] && e2 == [events[2], events[3]] && e3 == [events[3]];
    assert e3[1..] == [];
    assert Told(Idle, e3) == Idle && Coherent(Idle, e3);
    assert Told(Working, e2) == Idle && Coherent(Working, e2);
    assert Told(Working, e1) == Idle && Coherent(Working, e1);
  }

  lemma ToldOfOne(state: ShimState, e: Event)
    ensures Told(state, [e]) == ToldBy(state, e)
    ensures Coherent(state, [e]) <==> (e.StateChanged? ==> e.from == state) && (e.State? ==> e.state == state)
  {
    assert [e][1..] == [];
  }

  lemma ToldOfError(state: ShimState, summary: string, command: string, reason: string)
    ensures var events := [StateChanged(state, Idle, summary), Error(command, reason)];
            Told(state, events) == Idle && Coherent(state, events)
  {
    var events := [StateChanged(state, Idle, summary), Error(command, reason)];
    assert events[1..] == [Error(command, reason)];
    ToldOfOne(Idle, Error(command, reason));
  }

  /** The events of one step, and what they tell. */
  predicate StepTells(s: Shim, after: Shim, r: Result<seq<Event>, CommitError>, errs: bool) {
    match r
    case Err(_) => after.state == s.state && !errs
    case Ok(events) => Coherent(s.state, events) && (Told(s.state, events) == after.state <==> !errs)
  }

  lemma ApplyTells(s: Shim, b: Behavior, commitOk: bool)
    requires !b.Once? && !b.Script?
    ensures var (after, r) := Apply(s, b, commitOk);
            StepTells(s, after, r, b.ErrorOut? && s.state != Idle)
  {
    var id := MessageId(s.name, s.messageSeq + 1);
    match b
    case CompleteWith(response, _) =>
      ToldOfExchange(s.state, id, "fake_shim: started working", "fake_shim: finished", response);
    case NarrationOnly(response) =>
      ToldOfExchange(s.state, id, "fake_shim: narration-only pass", "fake_shim: narration-only done", response);
    case NarrationFirstThenClean(_, _) =>
      ToldOfExchange(s.state, id, "fake_shim: narration-only pass", "fake_shim: narration-only done",
                     "narration-first");
    case ErrorOut(command, reason) => ToldOfError(s.state, "fake_shim: error", command, reason);
    case ExhaustContext(message) => ToldOfOne(s.state, ContextExhausted(message, ""));
    case Silent =>
  }

  lemma ApplyKeepsUnscripted(s: Shim, b: Behavior, commitOk: bool)
    requires !b.Once? && AllUnscripted(s)
    ensures AllUnscripted(Apply(s, b, commitOk).0)
  {
  }

  lemma InfrastructureTells(s: Shim, c: Command)
    requires IsInfrastructure(c)
    ensures StepTells(s, Infrastructure(s, c).0, Ok(Infrastructure(s, c).1), false)
  {
    ToldOfOne(s.state, Pong);
    ToldOfOne(s.state, State(s.state, 0));
    ToldOfOne(s.state, Died(Some(0), ""));
  }

  lemma {:induction false} UnwrappedIsBare(b: Behavior)
    ensures !Unwrapped(b).Once? && Unwrapped(Unwrapped(b)) == Unwrapped(b)
    decreases b
  {
    if b.Once? {
      UnwrappedIsBare(b.inner);
    }
  }

  lemma StepTellsState(s: Shim, m: Inbound)
    requires AllUnscripted(s)
    ensures var (after, r) := Step(s, m);
            AllUnscripted(after) && StepTells(s, after, r, ErrsWhileNotIdle(s, m))
  {
    var noted := s.(handled := s.handled + [m.command]);
    if IsInfrastructure(m.command) {
      InfrastructureTells(noted, m.command);
    } else {
      var (rest, b) := NextBehavior(noted);
      assert s.behaviors != [] ==> s.behaviors[0] in s.behaviors;
      assert NextBehavior(s).1 == b && AllUnscripted(rest);
      if b.Some? {
        UnwrappedIsBare(b.value);
        ApplyUnwrapped(rest, b.value, m.commitOk);
        ApplyTells(rest, Unwrapped(b.value), m.commitOk);
        ApplyKeepsUnscripted(rest, Unwrapped(b.value), m.commitOk);
      }
    }
  }

  /** No command of the run is answered by an error while the shim is not idle. */
  predicate ErrsOnlyWhenIdle(s: Shim, inbox: seq<Inbound>)
    decreases |inbox|
  {
    inbox != [] ==>
      && !ErrsWhileNotIdle(s, inbox[0])
      && (Step(s, inbox[0]).1.Ok? ==> ErrsOnlyWhenIdle(Step(s, inbox[0]).0, inbox[1..]))
  }

  /** After each command, the state told is the state the shim is in. */
  ghost predicate AlwaysTold(s: Shim, inbox: seq<Inbound>) {
    forall k :: 0 <= k <= |inbox| ==> ToldAfter(s, inbox, k)
  }

  predicate ToldAfter(s: Shim, inbox: seq<Inbound>, k: nat)
    requires k <= |inbox|
  {
    var d := Drain(s, inbox[..k]);
    Told(s.state, d.sent) == d.shim.state
  }

  lemma ToldAfterStep(s: Shim, inbox: seq<Inbound>, k: nat)
    requires AllUnscripted(s) && 0 < k <= |inbox| && !ErrsWhileNotIdle(s, inbox[0])
    ensures ToldAfter(s, inbox, k) <==>
              (Step(s, inbox[0]).1.Ok? ==> ToldAfter(Step(s, inbox[0]).0, inbox[1..], k - 1))
  {
    var (next, r) := Step(s, inbox[0]);
    StepTellsState(s, inbox[0]);
    assert inbox[..k][0] == inbox[0] && inbox[..k][1..] == inbox[1..][..k - 1];
    DrainUnfolds(s, inbox[..k]);
    if r.Ok? {
      ToldOfConcat(s.state, r.value, Drain(next, inbox[1..][..k - 1]).sent);
    }
  }

  lemma ToldAfterFirst(s: Shim, inbox: seq<Inbound>)
    requires AllUnscripted(s) && inbox != []
    ensures ToldAfter(s, inbox, 0)
    ensures ToldAfter(s, inbox, 1) <==> !ErrsWhileNotIdle(s, inbox[0])
  {
    var (next, r) := Step(s, inbox[0]);
    StepTellsState(s, inbox[0]);
    assert inbox[..1] == [inbox[0]] && inbox[..1][1..] == [];
    DrainUnfolds(s, inbox[..1]);
    if r.Ok? {
      assert r.value + [] == r.value;
    }
  }

  /**
   Without scripts, the events tell the state of the shim after every command exactly
   when no error is played while it is not idle: an error announces idleness that the
   shim does not take on.
   */
  lemma {:induction false} AlwaysToldIff(s: Shim, inbox: seq<Inbound>)
    requires AllUnscripted(s)
    ensures AlwaysTold(s, inbox) <==> ErrsOnlyWhenIdle(s, inbox)
    decreases |inbox|
  {
    if inbox == [] {
      assert ToldAfter(s, inbox, 0);
    } else {
      var (next, r) := Step(s, inbox[0]);
      StepTellsState(s, inbox[0]);
      ToldAfterFirst(s, inbox);
      if !ErrsWhileNotIdle(s, inbox[0]) {
        forall k | 0 < k <= |inbox|
          ensures ToldAfter(s, inbox, k) <==> (r.Ok? ==> ToldAfter(next, inbox[1..], k - 1))
        {
          ToldAfterStep(s, inbox, k);
        }
        AlwaysToldStep(s, inbox, next, r.Ok?);
        if r.Ok? {
          AlwaysToldIff(next, inbox[1..]);
        }
      } else {
        assert !ToldAfter(s, inbox, 1);
      }
    }
  }

  lemma AlwaysToldStep(s: Shim, inbox: seq<Inbound>, next: Shim, ok: bool)
    requires inbox != [] && ToldAfter(s, inbox, 0)
    requires forall k :: 0 < k <= |inbox| ==> (ToldAfter(s, inbox, k) <==> (ok ==> ToldAfter(next, inbox[1..], k - 1)))
    ensures AlwaysTold(s, inbox) <==> (ok ==> AlwaysTold(next, inbox[1..]))
  {
    if AlwaysTold(s, inbox) && ok {
      forall k | 0 <= k <= |inbox[1..]|
        ensures ToldAfter(next, inbox[1..], k)
      {
        assert ToldAfter(s, inbox, k + 1);
      }
    }
  }

  /** In such a run every change of state starts where the last one ended, and every question is answered so. */
  lemma {:induction false} RunIsCoherent(s: Shim, inbox: seq<Inbound>)
    requires AllUnscripted(s) && ErrsOnlyWhenIdle(s, inbox)
    ensures Coherent(s.state, Drain(s, inbox).sent)
    ensures Told(s.state, Drain(s, inbox).sent) == Drain(s, inbox).shim.state
    decreases |inbox|
  {
    if inbox != [] {
      var (next, r) := Step(s, inbox[0]);
      StepTellsState(s, inbox[0]);
      if r.Ok? {
        RunIsCoherent(next, inbox[1..]);
        ToldOfConcat(s.state, r.value, Drain(next, inbox[1..]).sent);
      }
    }
  }

  // ---- which behaviour answers which message ------------------------------------------

  /** One answer for a message, without a commit. */
  predicate Completing(b: Behavior) {
    (b.CompleteWith? && b.files == []) || b.NarrationOnly?
  }

  /** The behaviour for the message with this number. */
  function BehaviorFor(s: Shim, n: nat): Behavior
    requires s.default.Some?
  {
    if n < |s.behaviors| then s.behaviors[n] else s.default.value
  }

  /** The script consists of answers only. */
  predicate AllCompleting(s: Shim) {
    (forall b :: b in s.behaviors ==> Completing(b)) && s.default.Some? && Completing(s.default.value)
  }

  lemma ServesFirst(s: Shim, m: Inbound)
    requires AllCompleting(s) && !IsInfrastructure(m.command)
    ensures Completing(BehaviorFor(s, 0))
    ensures var (next, r) := Step(s, m);
            && r.Ok? && |Answers(r.value)| == 1 && Answers(r.value)[0].1 == BehaviorFor(s, 0).response
            && AllCompleting(next) && forall i: nat :: i > 0 ==> BehaviorFor(s, i) == BehaviorFor(next, i - 1)
  {
    var b := BehaviorFor(s, 0);
    assert s.behaviors != [] ==> s.behaviors[0] in s.behaviors;
    AnswersOfExchange(s.state, MessageId(s.name, s.messageSeq + 1), "fake_shim: started working",
                      "fake_shim: finished", b.response);
    AnswersOfExchange(s.state, MessageId(s.name, s.messageSeq + 1), "fake_shim: narration-only pass",
                      "fake_shim: narration-only done", b.response);
  }

  /** The answers are those of the script, in order. */
  predicate AnswersInOrder(s: Shim, answers: seq<(Option<string>, string)>)
    requires s.default.Some?
  {
    forall i :: 0 <= i < |answers| ==> Completing(BehaviorFor(s, i)) && answers[i].1 == BehaviorFor(s, i).response
  }

  lemma OneMoreAnswer(s: Shim, next: Shim, first: seq<(Option<string>, string)>, rest: seq<(Option<string>, string)>)
    requires AllCompleting(s) && AllCompleting(next) && AnswersInOrder(next, rest)
    requires |first| == 1 && Completing(BehaviorFor(s, 0)) && first[0].1 == BehaviorFor(s, 0).response
    requires forall i: nat :: i > 0 ==> BehaviorFor(s, i) == BehaviorFor(next, i - 1)
    ensures AnswersInOrder(s, first + rest)
  {
  }

  /** Answers are played in the order of the queue; when it is empty the default answers, again and again. */
  lemma {:induction false} QueueIsServedInOrder(s: Shim, inbox: seq<Inbound>)
    requires AllCompleting(s) && forall m :: m in inbox ==> !IsInfrastructure(m.command)
    ensures var answers := Answers(Drain(s, inbox).sent);
            !Drain(s, inbox).failed && |answers| == |inbox| && AnswersInOrder(s, answers)
    decreases |inbox|
  {
    if inbox != [] {
      assert inbox[0] in inbox;
      var (next, r) := Step(s, inbox[0]);
      ServesFirst(s, inbox[0]);
      QueueIsServedInOrder(next, inbox[1..]);
      var rest := Drain(next, inbox[1..]);
      DrainUnfolds(s, inbox);
      AnswersOfConcat(r.value, rest.sent);
      OneMoreAnswer(s, next, Answers(r.value), Answers(rest.sent));
    }
  }

  /** What the behaviours without an answer send; none of them uses up a message id. */
  lemma SentWithoutAnswer(s: Shim, m: Inbound)
    requires !IsInfrastructure(m.command)
    ensures var (after, r) := Step(s, m);
            var b := NextBehavior(s).1;
            && (b.None? || Unwrapped(b.value).Silent? ==> r == Ok([]) && after.messageSeq == s.messageSeq)
            && (b.Some? && Unwrapped(b.value).Script? ==>
                  r == Ok(Unwrapped(b.value).events) && after.messageSeq == s.messageSeq && after.state == s.state)
            && (b.Some? && Unwrapped(b.value).ErrorOut? ==>
                  && r.Ok? && |r.value| == 2 && after.messageSeq == s.messageSeq
                  && r.value[1] == Error(Unwrapped(b.value).command, Unwrapped(b.value).reason))
            && (b.Some? && Unwrapped(b.value).ExhaustContext? ==>
                  r == Ok([ContextExhausted(Unwrapped(b.value).message, "")]) && after.messageSeq == s.messageSeq)
  {
    var (rest, b) := NextBehavior(s.(handled := s.handled + [m.command]));
    if b.Some? {
      ApplyUnwrapped(rest, b.value, m.commitOk);
    }
  }
}
