/** Whole runs of a producer session: operations on its signals, interleaved in any way with the
    announcements the session makes about the stream. */
module Runs {
  import opened Words
  import opened Messages
  import opened Session
  import opened Producer
  import opened Lockstep
  import Announcements
  import Container
  import Tables

  /** The producing side: the signals, and the session's register of signal ids. */
  datatype Site = Site(world: World, held: Announcements.Held)

  /** An operation on a signal, or a change of the register together with what it writes. */
  datatype Step =
    | Operate(op: Op)
    | Announce(change: Announcements.Op, written: seq<Message>)

  /** The producer can take the step. */
  ghost predicate Applies(p: Site, step: Step) {
    match step
    case Operate(op) => Applicable(p.world, op)
    case Announce(change, written) => Announcements.Announces(p.held, change, written)
  }

  /** The producer can take the step, and the discipline of subscribing permits it. */
  ghost predicate Allowed(p: Site, step: Step)
    ensures Allowed(p, step) ==> Applies(p, step)
  {
    Applies(p, step) && (step.Operate? ==> Permitted(p.world, step.op))
  }

  /** Moreover it does not turn a value signal into a signal of time. */
  ghost predicate Possible(p: Site, step: Step)
    ensures Possible(p, step) ==> Applies(p, step)
  {
    Allowed(p, step) && (step.Operate? ==> Proper(step.op))
  }

  ghost function Next(p: Site, step: Step): Site
    requires Applies(p, step)
  {
    match step
    case Operate(op) => p.(world := Apply(p.world, op))
    case Announce(change, _) => p.(held := Announcements.After(p.held, change))
  }

  ghost function Sent(p: Site, step: Step): seq<Tables.Input>
    requires Applies(p, step)
  {
    match step
    case Operate(op) => Outgoing(p.world, op)
    case Announce(_, written) => StreamInputs(written)
  }

  ghost function Callbacks(p: Site, step: Step): seq<Event>
    requires Applies(p, step)
  {
    match step
    case Operate(op) => Expected(p.world, op)
    case Announce(_, written) => StreamEvents(written)
  }

  /** Any run of steps the producer can take. */
  ghost predicate AttemptedRun(p: Site, steps: seq<Step>)
    decreases |steps|
  {
    steps == [] || (Applies(p, steps[0]) && AttemptedRun(Next(p, steps[0]), steps[1..]))
  }

  /** A run that keeps to the discipline of subscribing. */
  ghost predicate AllowedRun(p: Site, steps: seq<Step>)
    decreases |steps|
  {
    steps == [] || (Allowed(p, steps[0]) && AllowedRun(Next(p, steps[0]), steps[1..]))
  }

  /** A run that moreover keeps value signals what they are. */
  ghost predicate PermittedRun(p: Site, steps: seq<Step>)
    ensures PermittedRun(p, steps) ==> AttemptedRun(p, steps)
    decreases |steps|
  {
    steps == [] || (Possible(p, steps[0]) && PermittedRun(Next(p, steps[0]), steps[1..]))
  }

  ghost function NextAll(p: Site, steps: seq<Step>): Site
    requires AttemptedRun(p, steps)
    decreases |steps|
  {
    if steps == [] then p else NextAll(Next(p, steps[0]), steps[1..])
  }

  ghost function SentAll(p: Site, steps: seq<Step>): seq<Tables.Input>
    requires AttemptedRun(p, steps)
    decreases |steps|
  {
    if steps == [] then [] else Sent(p, steps[0]) + SentAll(Next(p, steps[0]), steps[1..])
  }

  ghost function CallbacksAll(p: Site, steps: seq<Step>): seq<Event>
    requires AttemptedRun(p, steps)
    decreases |steps|
  {
    if steps == [] then [] else Callbacks(p, steps[0]) + CallbacksAll(Next(p, steps[0]), steps[1..])
  }

  // ------------------------------------------------------------------ lockstep over runs

  lemma SignalNumbers(w: World, op: Op)
    requires Applicable(w, op)
    ensures Apply(w, op).signals.Keys == w.signals.Keys
    ensures forall i :: i in Outgoing(w, op) ==> i.number == op.n
  {
  }

  lemma InStepNumbers(w: World, c: Container.State)
    requires InStep(w, c)
    ensures forall n :: n in w.signals ==> 1 <= n < 0x10_0000
  {
  }

  /** Every step is accepted, makes the expected callbacks and keeps the two sides in step. */
  lemma LockstepStep(p: Site, c: Container.State, step: Step)
    requires InStep(p.world, c) && Possible(p, step)
    ensures var r := ReceiveAll(c, Sent(p, step));
            r.accepted && r.events == Callbacks(p, step) && InStep(Next(p, step).world, r.state)
  {
    hide InStep, Apply, Expected, Outgoing, Permitted, ReceiveAll;
    match step {
      case Operate(op) =>
        OperationStep(p.world, c, op);
        InStepNumbers(p.world, c);
        SignalNumbers(p.world, op);
        ReceiveIsProcess(c, Outgoing(p.world, op));
      case Announce(_, written) =>
        ReceiveStream(c, written);
    }
  }

  /** Over a whole run: everything is accepted, the two sides stay in step, and the callbacks are
      the expected ones in order. */
  lemma {:induction false} LockstepRun(p: Site, c: Container.State, steps: seq<Step>)
    requires InStep(p.world, c) && PermittedRun(p, steps)
    ensures var r := ReceiveAll(c, SentAll(p, steps));
            r.accepted && r.events == CallbacksAll(p, steps) && InStep(NextAll(p, steps).world, r.state)
    decreases |steps|
  {
    hide InStep, Next, Callbacks, Sent, Possible, Receive;
    if steps != [] {
      LockstepStep(p, c, steps[0]);
      var r := ReceiveAll(c, Sent(p, steps[0]));
      LockstepRun(Next(p, steps[0]), r.state, steps[1..]);
      ReceiveConcat(c, Sent(p, steps[0]), SentAll(Next(p, steps[0]), steps[1..]));
    }
  }

  lemma {:induction false} NumbersFit(p: Site, steps: seq<Step>)
    requires AttemptedRun(p, steps) && forall n :: n in p.world.signals ==> n < 0x10_0000
    ensures forall i :: i in SentAll(p, steps) ==> i.number < 0x10_0000
    decreases |steps|
  {
    hide Apply, Outgoing, Permitted;
    if steps != [] {
      if steps[0].Operate? {
        SignalNumbers(p.world, steps[0].op);
      }
      NumbersFit(Next(p, steps[0]), steps[1..]);
    }
  }

  // ------------------------------------------------------------------ acceptance

  /** The consumer has the signals that are subscribed, and signals have the numbers they are
      issued. Nothing is said about tables, roles and what the consumer knows about a signal. */
  ghost predicate SameSubscriptions(w: World, c: Container.State) {
    && c.signals.Keys == w.subscribed <= w.signals.Keys
    && forall n :: n in w.signals ==> 1 <= n < 0x10_0000
  }

  lemma AcceptedStepIff(p: Site, c: Container.State, step: Step)
    requires SameSubscriptions(p.world, c) && Applies(p, step)
    ensures var r := ReceiveAll(c, Sent(p, step));
            && (r.accepted <==> Allowed(p, step))
            && (r.accepted ==> SameSubscriptions(Next(p, step).world, r.state))
  {
    hide Apply, Outgoing, Permitted, ReceiveAll, Tables.ProcessAll;
    match step {
      case Operate(op) =>
        SignalNumbers(p.world, op);
        SubscribedStays(p.world, op);
        AcceptedIffPermitted(p.world, c, op);
        ReceiveIsProcess(c, Outgoing(p.world, op));
      case Announce(_, written) =>
        ReceiveStream(c, written);
    }
  }

  lemma SubscribedStays(w: World, op: Op)
    requires Applicable(w, op) && w.subscribed <= w.signals.Keys
    ensures Apply(w, op).subscribed <= w.signals.Keys
  {
  }

  /** Every run the producer can take is accepted to the end if and only if it keeps to the
      discipline: signals are subscribed only when they are not, unsubscribed and described only
      when they are, and described only when they are describable. */
  lemma {:induction false} AcceptedRunIff(p: Site, c: Container.State, steps: seq<Step>)
    requires SameSubscriptions(p.world, c) && AttemptedRun(p, steps)
    ensures ReceiveAll(c, SentAll(p, steps)).accepted <==> AllowedRun(p, steps)
    decreases |steps|
  {
    hide SameSubscriptions, Next, Sent, Applies, Allowed, Receive;
    if steps != [] {
      AcceptedStepIff(p, c, steps[0]);
      var r := ReceiveAll(c, Sent(p, steps[0]));
      var rest := SentAll(Next(p, steps[0]), steps[1..]);
      if r.accepted {
        ReceiveConcat(c, Sent(p, steps[0]), rest);
        AcceptedRunIff(Next(p, steps[0]), r.state, steps[1..]);
      } else {
        ReceiveRefused(c, Sent(p, steps[0]), rest);
      }
    }
  }

  // ------------------------------------------------------------------ announcements

  /** The stream related messages among the callbacks. */
  function StreamLog(events: seq<Event>): seq<Message> {
    if events == [] then [] else LogEntry(events[0]) + StreamLog(events[1..])
  }

  function LogEntry(e: Event): seq<Message> {
    if e.StreamEvent? then [e.message] else []
  }

  lemma Associate(a: seq<Message>, b: seq<Message>, c: seq<Message>)
    ensures a + (b + c) == (a + b) + c
  {
  }

  lemma {:induction false} StreamLogConcat(a: seq<Event>, b: seq<Event>)
    ensures StreamLog(a + b) == StreamLog(a) + StreamLog(b)
  {
    hide LogEntry;
    if a == [] {
      assert a + b == b;
    } else {
      var rest := a[1..];
      StreamLogConcat(rest, b);
      assert (a + b)[0] == a[0] && (a + b)[1..] == rest + b;
      Associate(LogEntry(a[0]), StreamLog(rest), StreamLog(b));
    }
  }

  lemma {:induction false} StreamLogOfMessages(ms: seq<Message>)
    ensures StreamLog(StreamEvents(ms)) == ms
  {
    if ms != [] {
      assert StreamEvents(ms)[1..] == StreamEvents(ms[1..]);
      StreamLogOfMessages(ms[1..]);
    }
  }

  lemma {:induction false} NoStreamLog(events: seq<Event>)
    requires forall e :: e in events ==> !e.StreamEvent?
    ensures StreamLog(events) == []
  {
    if events != [] {
      NoStreamLog(events[1..]);
    }
  }

  /** The changes of the register in a run. */
  function Changes(steps: seq<Step>): seq<Announcements.Op> {
    if steps == [] then [] else (if steps[0].Announce? then [steps[0].change] else []) + Changes(steps[1..])
  }

  lemma StepLog(p: Site, step: Step)
    requires Possible(p, step)
    ensures StreamLog(Callbacks(p, step)) == if step.Announce? then step.written else []
  {
    match step {
      case Operate(op) => NoStreamLog(Callbacks(p, step));
      case Announce(_, written) => StreamLogOfMessages(written);
    }
  }

  /** Replaying the stream messages among the callbacks gives what the changes of the register
      make known. */
  lemma {:induction false} ReplayOfRun(p: Site, known: set<string>, steps: seq<Step>)
    requires PermittedRun(p, steps)
    ensures Announcements.ReplayAll(known, StreamLog(CallbacksAll(p, steps)))
         == Announcements.KnownAfterAll(known, p.held, Changes(steps))
    ensures NextAll(p, steps).held == Announcements.HeldAfter(p.held, Changes(steps))
    decreases |steps|
  {
    hide Callbacks, Announcements.Announces, Announcements.After, Announcements.KnownAfter, Apply;
    if steps != [] {
      var step, p', rest := steps[0], Next(p, steps[0]), steps[1..];
      StepLog(p, step);
      StreamLogConcat(Callbacks(p, step), CallbacksAll(p', rest));
      if step.Announce? {
        var known' := Announcements.KnownAfter(known, p.held, step.change);
        Announcements.ReplayAnnounced(known, p.held, step.change, step.written);
        Announcements.ReplayConcat(known, step.written, StreamLog(CallbacksAll(p', rest)));
        ReplayOfRun(p', known', rest);
        assert ([step.change] + Changes(rest))[1..] == Changes(rest);
      } else {
        ReplayOfRun(p', known, rest);
        assert [] + StreamLog(CallbacksAll(p', rest)) == StreamLog(CallbacksAll(p', rest));
        assert [] + Changes(rest) == Changes(rest);
      }
    }
  }

  /** When ids keep their kind, a client that replays the stream messages among its callbacks knows
      exactly the data signals the session holds. */
  lemma ConsumerKnowsDataSignals(p: Site, steps: seq<Step>)
    requires PermittedRun(p, steps) && Announcements.KindsKeptThroughout(p.held, Changes(steps))
    ensures Announcements.ReplayAll(Announcements.DataSignals(p.held), StreamLog(CallbacksAll(p, steps)))
         == Announcements.DataSignals(NextAll(p, steps).held)
  {
    var known := Announcements.DataSignals(p.held);
    ReplayOfRun(p, known, steps);
    Announcements.TruthRunIff(p.held, Changes(steps));
    Announcements.TrueAtEnd(p.held, known, Changes(steps));
  }
}
