/** Time start and rate of the producer's time signals, and unit, range and scaling of its value
    signals: when the consumer has them, and when samples are therefore delivered at the producer's
    own times. */
module Settings {
  import opened Words
  import opened Values
  import opened Messages
  import opened Producer
  import opened Runs
  import opened Samples
  import Container
  import Layout
  import Lockstep
  import Session
  import Tables

  /** The consumer's time start and delta of every subscribed time signal are the producer's. */
  ghost predicate SettingsAgree(w: World, c: Container.State) {
    forall k :: k in w.subscribed && k in w.signals && k in c.signals && w.signals[k].Clock? ==>
      c.signals[k].time == w.signals[k].timeStart && c.signals[k].delta == w.signals[k].delta
  }

  /** The time signal as the consumer would have it if it had received everything. */
  function Own(clock: Producer.Signal): (r: Producer.Signal)
    requires clock.Clock?
    ensures r.Clock?
  {
    clock.(anchor := clock.timeStart, announced := clock.delta)
  }

  ghost predicate Settled(w: World) {
    forall k :: k in w.subscribed && k in w.signals && w.signals[k].Clock? ==> Own(w.signals[k]) == w.signals[k]
  }

  lemma SettingsAgreeIff(w: World, c: Container.State)
    requires Lockstep.InStep(w, c)
    ensures SettingsAgree(w, c) <==> Settled(w)
  {
    hide Tables.Exact;
    forall k | k in w.subscribed && k in w.signals && w.signals[k].Clock?
      ensures k in c.signals
      ensures c.signals[k].time == w.signals[k].anchor && c.signals[k].delta == w.signals[k].announced
    {
      assert Lockstep.Matches(w.signals[k], c.signals[k]);
    }
  }

  /** A step leaves the consumer with old settings: a time signal is subscribed after its time start
      was set, which is not repeated; a new time start is set while the table has no subscribed
      value signal; or the rate is changed, which is not sent before the next description. */
  ghost predicate Outdates(p: Site, step: Step) {
    && step.Operate? && step.op.n in p.world.signals && p.world.signals[step.op.n].Clock?
    && var e := p.world.signals[step.op.n];
       match step.op
       case SubscribeSignal(_) => e.timeStart != 0
       case SetTimeStart(n, ticks) =>
         n in p.world.subscribed && ticks != e.timeStart && !exists k :: IsValueSignal(p.world, k, e.table)
       case SetOutputRate(n, ticks) => n in p.world.subscribed && ticks != e.delta
       case _ => false
  }

  lemma SettledStepIff(p: Site, step: Step)
    requires WellFormed(p.world) && Possible(p, step) && Settled(p.world)
    ensures Settled(Next(p, step).world) <==> !Outdates(p, step)
  {
    hide Expected, AllOfLength, Flatten;
    var w, w' := p.world, Next(p, step).world;
    if step.Operate? {
      var n := step.op.n;
      assert forall k :: k in w.signals && k != n ==> k in w'.signals && w'.signals[k] == w.signals[k];
      assert forall k :: k != n ==> (k in w'.subscribed <==> k in w.subscribed);
      if Outdates(p, step) {
        assert n in w'.subscribed && Own(w'.signals[n]) != w'.signals[n];
      }
    }
  }

  ghost predicate AgreeThroughout(p: Site, c: Container.State, steps: seq<Step>)
    requires PermittedRun(p, steps)
    decreases |steps|
  {
    && SettingsAgree(p.world, c)
    && (steps != [] ==>
         AgreeThroughout(Next(p, steps[0]), Session.ReceiveAll(c, Sent(p, steps[0])).state, steps[1..]))
  }

  ghost predicate NothingOutdated(p: Site, steps: seq<Step>)
    requires PermittedRun(p, steps)
    decreases |steps|
  {
    steps != [] ==> !Outdates(p, steps[0]) && NothingOutdated(Next(p, steps[0]), steps[1..])
  }

  /** Over every permitted run the consumer has the producer's time start and rate after every step
      if and only if no step leaves it with old settings. */
  lemma {:induction false} SettingsRunIff(p: Site, c: Container.State, steps: seq<Step>)
    requires Lockstep.InStep(p.world, c) && PermittedRun(p, steps) && SettingsAgree(p.world, c)
    ensures AgreeThroughout(p, c, steps) <==> NothingOutdated(p, steps)
    decreases |steps|
  {
    hide Lockstep.Matches, Tables.Exact, WellFormed, Next, Callbacks, Sent, Possible, SettingsAgree, Settled, Outdates,
         Session.ReceiveAll;
    if steps != [] {
      var step := steps[0];
      var r := Session.ReceiveAll(c, Sent(p, step));
      LockstepStep(p, c, step);
      SettingsAgreeIff(p.world, c);
      SettledStepIff(p, step);
      SettingsAgreeIff(Next(p, step).world, r.state);
      if !Outdates(p, step) {
        SettingsRunIff(Next(p, step), r.state, steps[1..]);
      }
    }
  }

  /** A time start set before the subscription never reaches the consumer: it starts at time 0. */
  lemma TimeStartNotRepeated(p: Site, c: Container.State, n: nat)
    requires Lockstep.InStep(p.world, c) && Possible(p, Operate(SubscribeSignal(n))) && p.world.signals[n].Clock?
    ensures var r := Session.ReceiveAll(c, Sent(p, Operate(SubscribeSignal(n))));
            r.accepted && n in r.state.signals && r.state.signals[n].time == 0
  {
    hide Tables.Exact, WellFormed, Session.ReceiveAll, Sent, Callbacks;
    var step := Operate(SubscribeSignal(n));
    var r := Session.ReceiveAll(c, Sent(p, step));
    LockstepStep(p, c, step);
    assert Lockstep.Matches(Next(p, step).world.signals[n], r.state.signals[n]);
  }

  // ------------------------------------------------------------------ the producer's own times

  /** The samples of signal n that a step takes, at timeStart + index * delta by the producer's own
      settings. */
  ghost function OwnTakenIn(p: Site, n: nat, step: Step): seq<Sample>
    requires n in p.world.signals && p.world.signals[n].Sync?
  {
    if step.Operate? && step.op.AddData? && step.op.n == n && n in p.world.subscribed then
      Taken(Own(ClockFor(p.world, n)), n, p.world.signals[n].index, step.op.samples)
    else []
  }

  ghost function OwnTakenAll(p: Site, n: nat, steps: seq<Step>): seq<Sample>
    requires PermittedRun(p, steps) && n in p.world.signals && p.world.signals[n].Sync?
    decreases |steps|
  {
    if steps == [] then [] else
      KindStays(p, n, steps[0]);
      OwnTakenIn(p, n, steps[0]) + OwnTakenAll(Next(p, steps[0]), n, steps[1..])
  }

  lemma OwnStep(p: Site, n: nat, step: Step)
    requires n in p.world.signals && p.world.signals[n].Sync? && Settled(p.world)
    ensures OwnTakenIn(p, n, step) == TakenIn(p, n, step)
  {
    hide Taken;
  }

  lemma {:induction false} OwnRun(p: Site, c: Container.State, n: nat, steps: seq<Step>)
    requires Lockstep.InStep(p.world, c) && PermittedRun(p, steps) && AgreeThroughout(p, c, steps)
    requires n in p.world.signals && p.world.signals[n].Sync?
    ensures OwnTakenAll(p, n, steps) == TakenAll(p, n, steps)
    decreases |steps|
  {
    hide Lockstep.InStep, Next, Callbacks, Sent, Possible, SettingsAgree, Settled, Session.ReceiveAll, TakenIn,
         OwnTakenIn;
    if steps != [] {
      LockstepStep(p, c, steps[0]);
      SettingsAgreeIff(p.world, c);
      OwnStep(p, n, steps[0]);
      KindStays(p, n, steps[0]);
      OwnRun(Next(p, steps[0]), Session.ReceiveAll(c, Sent(p, steps[0])).state, n, steps[1..]);
    }
  }

  /** Over every permitted run that loses no samples and leaves no old settings, the samples of
      signal n are delivered at the producer's own times. */
  lemma SamplesAtOwnTimes(p: Site, c: Container.State, n: nat, steps: seq<Step>)
    requires Lockstep.InStep(p.world, c) && PermittedRun(p, steps)
    requires IndicesAgree(p.world, c) && SettingsAgree(p.world, c)
    requires NothingLost(p, steps) && NothingOutdated(p, steps)
    requires n in p.world.signals && p.world.signals[n].Sync?
    ensures Delivered(n, CallbacksAll(p, steps), Layout.Width(p.world.signals[n].base)) == OwnTakenAll(p, n, steps)
  {
    hide Lockstep.InStep, PermittedRun, IndicesAgree, SettingsAgree, NothingLost, NothingOutdated, TakenAll,
         OwnTakenAll, Delivered, CallbacksAll, AgreeThroughout;
    SettingsRunIff(p, c, steps);
    OwnRun(p, c, n, steps);
    SamplesOfRun(p, c, n, steps);
  }

  // ------------------------------------------------------------------ unit, range and scaling

  /** The consumer's unit, range and scaling of every subscribed value signal are the producer's. */
  ghost predicate AttributesAgree(w: World, c: Container.State) {
    forall n :: n in w.subscribed && n in w.signals && n in c.signals && !w.signals[n].Clock? ==>
      Lockstep.AttributesOf(c.signals[n]) == w.signals[n].own
  }

  ghost predicate AllTold(w: World) {
    forall n :: n in w.subscribed && n in w.signals && !w.signals[n].Clock? ==> w.signals[n].seen == w.signals[n].own
  }

  lemma AttributesAgreeIff(w: World, c: Container.State)
    requires Lockstep.InStep(w, c)
    ensures AttributesAgree(w, c) <==> AllTold(w)
  {
    hide Tables.Exact;
    forall n | n in w.subscribed && n in w.signals && !w.signals[n].Clock?
      ensures n in c.signals && Lockstep.AttributesOf(c.signals[n]) == w.signals[n].seen
    {
      assert Lockstep.Matches(w.signals[n], c.signals[n]);
    }
  }

  /** A step leaves the consumer without the attributes of a value signal: it is subscribed with a
      unit that has a name or a quantity but no number, which is not sent; or its attributes are
      changed while it is subscribed, which is not sent before the next description. */
  ghost predicate Withholds(p: Site, step: Step) {
    && step.Operate? && step.op.n in p.world.signals && !p.world.signals[step.op.n].Clock?
    && var e := p.world.signals[step.op.n];
       match step.op
       case SubscribeSignal(_) => e.own.unit.id == UNIT_ID_NONE && e.own.unit != NO_UNIT
       case SetAttributes(n, attributes) => n in p.world.subscribed && attributes != e.own
       case _ => false
  }

  lemma ToldStepIff(p: Site, step: Step)
    requires Possible(p, step) && AllTold(p.world)
    ensures AllTold(Next(p, step).world) <==> !Withholds(p, step)
  {
    hide Expected, AllOfLength, Flatten, ClockIn;
    var w, w' := p.world, Next(p, step).world;
    if step.Operate? {
      var n := step.op.n;
      assert forall k :: k in w.signals && k != n ==> k in w'.signals && w'.signals[k] == w.signals[k];
      assert forall k :: k != n ==> (k in w'.subscribed <==> k in w.subscribed);
      if !w.signals[n].Clock? {
        ToldIff(w.signals[n].own, NO_ATTRIBUTES);
        ToldIff(w.signals[n].own, w.signals[n].own);
        if Withholds(p, step) {
          assert n in w'.subscribed && w'.signals[n].seen != w'.signals[n].own;
        }
      }
    }
  }

  ghost predicate ToldThroughout(p: Site, c: Container.State, steps: seq<Step>)
    requires PermittedRun(p, steps)
    decreases |steps|
  {
    && AttributesAgree(p.world, c)
    && (steps != [] ==>
         ToldThroughout(Next(p, steps[0]), Session.ReceiveAll(c, Sent(p, steps[0])).state, steps[1..]))
  }

  ghost predicate NothingWithheld(p: Site, steps: seq<Step>)
    requires PermittedRun(p, steps)
    decreases |steps|
  {
    steps != [] ==> !Withholds(p, steps[0]) && NothingWithheld(Next(p, steps[0]), steps[1..])
  }

  /** Over every permitted run the consumer has unit, range and scaling of every subscribed value
      signal after every step if and only if no step withholds them. */
  lemma {:induction false} AttributesRunIff(p: Site, c: Container.State, steps: seq<Step>)
    requires Lockstep.InStep(p.world, c) && PermittedRun(p, steps) && AttributesAgree(p.world, c)
    ensures ToldThroughout(p, c, steps) <==> NothingWithheld(p, steps)
    decreases |steps|
  {
    hide Lockstep.InStep, Next, Callbacks, Sent, Possible, AttributesAgree, AllTold, Withholds, Session.ReceiveAll;
    if steps != [] {
      var step := steps[0];
      var r := Session.ReceiveAll(c, Sent(p, step));
      LockstepStep(p, c, step);
      AttributesAgreeIff(p.world, c);
      ToldStepIff(p, step);
      AttributesAgreeIff(Next(p, step).world, r.state);
      if !Withholds(p, step) {
        AttributesRunIff(Next(p, step), r.state, steps[1..]);
      }
    }
  }

  /** Describing a value signal again tells the consumer its attributes if and only if nothing has
      to be taken back: no unit, no quantity, no limit and no scaling are not sent. */
  lemma DescriptionTellsIff(p: Site, c: Container.State, n: nat)
    requires Lockstep.InStep(p.world, c) && Possible(p, Operate(WriteDescription(n))) && !p.world.signals[n].Clock?
    ensures n in c.signals
    ensures var own, seen := p.world.signals[n].own, Lockstep.AttributesOf(c.signals[n]);
            var r := Session.ReceiveAll(c, Sent(p, Operate(WriteDescription(n))));
            n in r.state.signals && (Lockstep.AttributesOf(r.state.signals[n]) == own <==>
              && (own.unit.id == UNIT_ID_NONE ==> seen.unit == own.unit)
              && (own.unit.id != UNIT_ID_NONE && own.unit.quantity == "" ==> seen.unit.quantity == "")
              && (own.range.low.Unlimited? ==> seen.range.low.Unlimited?)
              && (own.range.high.Unlimited? ==> seen.range.high.Unlimited?)
              && (own.scaling.IsOneToOne() ==> seen.scaling.IsOneToOne()))
  {
    hide Tables.Exact, WellFormed, Session.ReceiveAll, Sent, Callbacks;
    var step, e := Operate(WriteDescription(n)), p.world.signals[n];
    var r := Session.ReceiveAll(c, Sent(p, step));
    LockstepStep(p, c, step);
    assert Lockstep.Matches(e, c.signals[n]);
    assert Lockstep.Matches(Next(p, step).world.signals[n], r.state.signals[n]);
    ToldIff(e.own, e.seen);
  }

  /** A scaling that was cleared stays with the consumer. */
  lemma ClearedScalingStays(p: Site, c: Container.State, n: nat)
    requires Lockstep.InStep(p.world, c) && Possible(p, Operate(WriteDescription(n))) && !p.world.signals[n].Clock?
    requires p.world.signals[n].own.scaling == ONE_TO_ONE
    requires n in c.signals && c.signals[n].scaling == PostScaling(0.0, 2.0)
    ensures var r := Session.ReceiveAll(c, Sent(p, Operate(WriteDescription(n))));
            n in r.state.signals && r.state.signals[n].scaling == PostScaling(0.0, 2.0)
  {
    hide Tables.Exact, WellFormed, Session.ReceiveAll, Sent, Callbacks;
    var step, e := Operate(WriteDescription(n)), p.world.signals[n];
    var r := Session.ReceiveAll(c, Sent(p, step));
    LockstepStep(p, c, step);
    assert Lockstep.Matches(e, c.signals[n]);
    assert Lockstep.Matches(Next(p, step).world.signals[n], r.state.signals[n]);
  }
}
