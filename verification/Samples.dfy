/** Sample by sample: which time the consumer sees for each sample, when that is the time the sample
    was taken, and that it does not matter how samples are grouped into packets. */
module Samples {
  import opened Words
  import opened Values
  import opened Messages
  import opened Producer
  import opened Runs
  import Announcements
  import Container
  import Layout
  import Lockstep
  import Session

  datatype Sample = Sample(number: nat, time: Word64, bytes: seq<Byte>)

  /** The samples in a value callback: the time stamp is that of the first one, the others follow
      at the signal's linear delta. */
  function SamplesOf(n: nat, timeStamp: Word64, delta: Word64, data: seq<Byte>, count: nat, width: nat)
    : (r: seq<Sample>)
    ensures |r| == count
  {
    seq(count, j requires 0 <= j < count => Sample(n, Wrap(timeStamp + j * delta), Clip(data, j * width, width)))
  }

  /** All samples delivered for signal n, of the given sample width, by a sequence of callbacks. */
  function Delivered(n: nat, events: seq<Event>, width: nat): seq<Sample> {
    if events == [] then [] else
      var e := events[0];
      (if e.Values? && e.number == n then SamplesOf(n, e.timeStamp, e.delta, e.data, e.valueCount, width) else [])
      + Delivered(n, events[1..], width)
  }

  /** Sample j of a run that starts at `index` is taken at anchor + (index + j) * delta. */
  function Taken(clock: Producer.Signal, n: nat, index: int, samples: seq<seq<Byte>>): (r: seq<Sample>)
    requires clock.Clock?
    ensures |r| == |samples|
  {
    seq(|samples|, j requires 0 <= j < |samples| => Sample(n, TimeOf(clock, index + j), samples[j]))
  }

  lemma TimeOfNext(clock: Producer.Signal, index: int, j: nat)
    requires clock.Clock?
    ensures Wrap(TimeOf(clock, index) + j * clock.announced) == TimeOf(clock, index + j)
  {
    var d := clock.announced;
    WrapAdd(clock.anchor + index * d, j * d);
    assert index * d + j * d == (index + j) * d;
  }

  lemma TimeOfModulo(clock: Producer.Signal, index: int, lag: int)
    requires clock.Clock?
    ensures TimeOf(clock, Wrap(index) - lag) == TimeOf(clock, index - lag)
  {
    var q, d := index / 0x1_0000_0000_0000_0000, clock.announced;
    var i := Wrap(index) - lag;
    assert index - lag == i + 0x1_0000_0000_0000_0000 * q;
    assert (i + 0x1_0000_0000_0000_0000 * q) * d == i * d + 0x1_0000_0000_0000_0000 * (q * d);
    WrapShift(clock.anchor + i * d, q * d);
  }

  /** A packet stamped with the time of its first sample delivers every sample at its own time. */
  lemma PacketDelivers(clock: Producer.Signal, n: nat, index: int, samples: seq<seq<Byte>>, width: nat)
    requires clock.Clock? && AllOfLength(samples, width)
    ensures SamplesOf(n, TimeOf(clock, index), clock.announced, Flatten(samples), |samples|, width)
         == Taken(clock, n, index, samples)
  {
    var a := SamplesOf(n, TimeOf(clock, index), clock.announced, Flatten(samples), |samples|, width);
    var b := Taken(clock, n, index, samples);
    forall j | 0 <= j < |samples| ensures a[j] == b[j] {
      FlattenAt(samples, width, j);
      TimeOfNext(clock, index, j);
    }
  }

  lemma TakenConcat(clock: Producer.Signal, n: nat, index: int, a: seq<seq<Byte>>, b: seq<seq<Byte>>)
    requires clock.Clock?
    ensures Taken(clock, n, index, a + b) == Taken(clock, n, index, a) + Taken(clock, n, index + |a|, b)
  {
  }

  lemma TakenModulo(clock: Producer.Signal, n: nat, index: int, lag: int, samples: seq<seq<Byte>>)
    requires clock.Clock?
    ensures Taken(clock, n, Wrap(index) - lag, samples) == Taken(clock, n, index - lag, samples)
  {
    var a, b := Taken(clock, n, Wrap(index) - lag, samples), Taken(clock, n, index - lag, samples);
    forall j | 0 <= j < |samples| ensures a[j] == b[j] {
      TimeOfModulo(clock, index, lag - j);
    }
  }

  lemma {:induction false} DeliveredConcat(n: nat, a: seq<Event>, b: seq<Event>, width: nat)
    ensures Delivered(n, a + b, width) == Delivered(n, a, width) + Delivered(n, b, width)
  {
    hide SamplesOf;
    if a == [] {
      assert a + b == b;
    } else {
      assert (a + b)[1..] == a[1..] + b;
      DeliveredConcat(n, a[1..], b, width);
    }
  }

  lemma {:induction false} NoneDelivered(n: nat, events: seq<Event>, width: nat)
    requires forall e :: e in events ==> !(e.Values? && e.number == n)
    ensures Delivered(n, events, width) == []
  {
    hide SamplesOf;
    if events != [] {
      NoneDelivered(n, events[1..], width);
    }
  }

  // ------------------------------------------------------------------ one signal and its time signal

  /** Stands for the time signal of a table that has none. */
  const NO_CLOCK := Clock("", "", 0, 0, 0, 0, 0)

  ghost function ClockFor(w: World, n: nat): (clock: Producer.Signal)
    requires n in w.signals
    ensures clock.Clock?
  {
    var k := ClockIn(w, w.signals[n].table);
    if k == 0 then NO_CLOCK else w.signals[k]
  }

  /** The subscribed time signal of a table is unique. */
  lemma ClockUnique(w: World, k: nat, table: string)
    requires WellFormed(w) && IsClock(w, k, table)
    ensures ClockIn(w, table) == k
  {
  }

  /** A change of value signal n does not change the time signals. */
  lemma ClockStays(w: World, n: nat, e': Producer.Signal, table: string)
    requires WellFormed(w) && n in w.signals && !w.signals[n].Clock? && Lockstep.Similar(w.signals[n], e')
    ensures var w' := w.(signals := w.signals[n := e']);
            && WellFormed(w') && ClockIn(w', table) == ClockIn(w, table)
            && (ClockIn(w, table) != 0 ==> w'.signals[ClockIn(w, table)] == w.signals[ClockIn(w, table)])
  {
    var w' := w.(signals := w.signals[n := e']);
    Lockstep.WellFormedUpdate(w, n, e', w.subscribed);
    var k := ClockIn(w, table);
    if k != 0 {
      assert IsClock(w', k, table);
      ClockUnique(w', k, table);
    } else if ClockIn(w', table) != 0 {
      assert IsClock(w, ClockIn(w', table), table);
    }
  }

  /** Signal n is subscribed together with a time signal, so its samples are delivered. */
  ghost predicate Streaming(w: World, n: nat) {
    WellFormed(w) && n in w.subscribed && n in w.signals && w.signals[n].Sync? && ClockIn(w, w.signals[n].table) != 0
  }

  lemma ExpectedAdd(w: World, n: nat, samples: seq<seq<Byte>>)
    requires Streaming(w, n) && AllOfLength(samples, Layout.Width(w.signals[n].base))
    ensures var e, clock := w.signals[n], ClockFor(w, n);
            var t := TimeOf(clock, e.index - e.dropped);
            Expected(w, AddData(n, samples))
            == [Raw(n, t, Flatten(samples)), Values(n, t, Flatten(samples), |samples|, clock.announced)]
  {
    hide TimeOf, Flatten, WellFormed;
  }

  lemma OnePacket(n: nat, raw: Event, e: Event, width: nat)
    requires raw.Raw? && e.Values? && e.number == n
    ensures Delivered(n, [raw, e], width) == SamplesOf(n, e.timeStamp, e.delta, e.data, e.valueCount, width)
  {
    hide SamplesOf;
    assert [raw, e][1..] == [e] && [e][1..] == [];
    assert Delivered(n, [e], width) == SamplesOf(n, e.timeStamp, e.delta, e.data, e.valueCount, width);
  }

  /** The consumer stamps a packet by the samples it has seen: the samples refused since the last
      description are missing from the index. */
  lemma AddDataSamples(w: World, n: nat, samples: seq<seq<Byte>>)
    requires Streaming(w, n) && AllOfLength(samples, Layout.Width(w.signals[n].base))
    ensures var e := w.signals[n];
            Delivered(n, Expected(w, AddData(n, samples)), Layout.Width(e.base))
            == Taken(ClockFor(w, n), n, e.index - e.dropped, samples)
  {
    hide WellFormed, Expected, TimeOf, Flatten, Taken, SamplesOf;
    var e, clock := w.signals[n], ClockFor(w, n);
    var t := TimeOf(clock, e.index - e.dropped);
    ExpectedAdd(w, n, samples);
    PacketDelivers(clock, n, e.index - e.dropped, samples, Layout.Width(e.base));
    OnePacket(n, Raw(n, t, Flatten(samples)), Values(n, t, Flatten(samples), |samples|, clock.announced),
              Layout.Width(e.base));
  }

  // ------------------------------------------------------------------ a block of packets of one signal

  function AddAll(n: nat, parts: seq<seq<seq<Byte>>>): seq<Step> {
    if parts == [] then [] else [Operate(AddData(n, parts[0]))] + AddAll(n, parts[1..])
  }

  function Joined(parts: seq<seq<seq<Byte>>>): seq<seq<Byte>> {
    if parts == [] then [] else parts[0] + Joined(parts[1..])
  }

  predicate AllWhole(parts: seq<seq<seq<Byte>>>, width: nat) {
    parts == [] || (AllOfLength(parts[0], width) && AllWhole(parts[1..], width))
  }

  lemma AddDataWorld(w: World, n: nat, samples: seq<seq<Byte>>)
    requires Streaming(w, n) && AllOfLength(samples, Layout.Width(w.signals[n].base))
    ensures var w' := Apply(w, AddData(n, samples));
            && Streaming(w', n) && ClockFor(w', n) == ClockFor(w, n)
            && w'.signals[n] == w.signals[n].(index := Wrap(w.signals[n].index + |samples|))
  {
    hide WellFormed;
    Lockstep.NoneLost(w.signals[n], |samples|);
    ClockStays(w, n, Lockstep.Advanced(w.signals[n], |samples|, 0), w.signals[n].table);
  }

  lemma EmptyRun(p: Site)
    ensures PermittedRun(p, []) && CallbacksAll(p, []) == []
  {
  }

  lemma AddDataPossible(p: Site, n: nat, samples: seq<seq<Byte>>)
    requires Streaming(p.world, n) && AllOfLength(samples, Layout.Width(p.world.signals[n].base))
    ensures var step := Operate(AddData(n, samples));
            && Possible(p, step) && Next(p, step) == p.(world := Apply(p.world, AddData(n, samples)))
            && Callbacks(p, step) == Expected(p.world, AddData(n, samples))
  {
    hide WellFormed, Apply, Expected;
  }

  /** However a block of samples is split into packets, the same samples are delivered, each once
      and in order. */
  lemma {:induction false} BlockDelivers(p: Site, n: nat, parts: seq<seq<seq<Byte>>>)
    requires Streaming(p.world, n) && AllWhole(parts, Layout.Width(p.world.signals[n].base))
    ensures PermittedRun(p, AddAll(n, parts))
    ensures var e := p.world.signals[n];
            Delivered(n, CallbacksAll(p, AddAll(n, parts)), Layout.Width(e.base))
            == Taken(ClockFor(p.world, n), n, e.index - e.dropped, Joined(parts))
    decreases |parts|
  {
    hide Expected, Apply, Taken, TimeOf, Delivered, WellFormed, ClockFor, PermittedRun, CallbacksAll, TakenAll, NextAll,
         Next, Possible, Callbacks, Applies, Wrap;
    var w := p.world;
    var e, clock, width := w.signals[n], ClockFor(w, n), Layout.Width(w.signals[n].base);
    if parts == [] {
      EmptyRun(p);
      NoneDelivered(n, [], width);
      assert Taken(clock, n, e.index - e.dropped, []) == [];
    } else {
      var samples, rest := parts[0], parts[1..];
      AddDataWorld(w, n, samples);
      AddDataSamples(w, n, samples);
      AddDataPossible(p, n, samples);
      BlockDelivers(Next(p, Operate(AddData(n, samples))), n, rest);
      Unfold(p, n, Operate(AddData(n, samples)), AddAll(n, rest));
      TakenModulo(clock, n, e.index + |samples|, e.dropped, Joined(rest));
      TakenConcat(clock, n, e.index - e.dropped, samples, Joined(rest));
    }
  }

  lemma LagHarmlessIff(x: int, y: int)
    ensures Wrap(x - y) == Wrap(x) <==> Wrap(y) == 0
  {
  }

  lemma TimeLagIff(clock: Producer.Signal, index: int, lag: nat)
    requires clock.Clock?
    ensures TimeOf(clock, index - lag) == TimeOf(clock, index) <==> Wrap(lag * clock.announced) == 0
  {
    var d := clock.announced;
    assert (index - lag) * d == index * d - lag * d;
    LagHarmlessIff(clock.anchor + index * d, lag * d);
  }

  lemma TakenLagIff(clock: Producer.Signal, n: nat, index: int, lag: nat, samples: seq<seq<Byte>>)
    requires clock.Clock?
    ensures Taken(clock, n, index - lag, samples) == Taken(clock, n, index, samples)
       <==> samples == [] || Wrap(lag * clock.announced) == 0
  {
    hide TimeOf, Wrap;
    var a, b := Taken(clock, n, index - lag, samples), Taken(clock, n, index, samples);
    forall j | 0 <= j < |samples| ensures a[j] == b[j] <==> Wrap(lag * clock.announced) == 0 {
      TimeLagIff(clock, index + j, lag);
      assert index + j - lag == index - lag + j;
    }
    if samples != [] && Wrap(lag * clock.announced) != 0 {
      assert a[0] != b[0];
    }
  }

  /** The block is delivered at the times its samples were taken, however it is split, if and only
      if it is empty or the lag is a whole number of turns of the 64-bit clock; in particular when
      no sample was refused since the last description. */
  lemma SplittingIrrelevant(p: Site, n: nat, parts: seq<seq<seq<Byte>>>)
    requires Streaming(p.world, n) && AllWhole(parts, Layout.Width(p.world.signals[n].base))
    ensures PermittedRun(p, AddAll(n, parts))
    ensures var e, clock := p.world.signals[n], ClockFor(p.world, n);
            Delivered(n, CallbacksAll(p, AddAll(n, parts)), Layout.Width(e.base))
            == Taken(clock, n, e.index, Joined(parts))
            <==> Joined(parts) == [] || Wrap(e.dropped * clock.announced) == 0
  {
    hide Taken, Delivered, CallbacksAll, PermittedRun, WellFormed, ClockFor, Wrap, TimeOf, AllWhole, AddAll, Joined;
    var e := p.world.signals[n];
    BlockDelivers(p, n, parts);
    TakenLagIff(ClockFor(p.world, n), n, e.index, e.dropped, Joined(parts));
  }

  // ------------------------------------------------------------------ whole runs

  /** The samples of signal n that a step takes while n is subscribed, at the time given by the
      producer's own value index and the anchor and delta the consumer received last. */
  ghost function TakenIn(p: Site, n: nat, step: Step): seq<Sample>
    requires n in p.world.signals && p.world.signals[n].Sync?
  {
    if step.Operate? && step.op.AddData? && step.op.n == n && n in p.world.subscribed then
      Taken(ClockFor(p.world, n), n, p.world.signals[n].index, step.op.samples)
    else []
  }

  /** A step loses samples: they are added to a subscribed signal while no time signal of its table
      is subscribed. */
  ghost predicate Loses(p: Site, step: Step) {
    && step.Operate? && step.op.AddData?
    && step.op.n in p.world.subscribed && step.op.n in p.world.signals
    && step.op.samples != []
    && ClockIn(p.world, p.world.signals[step.op.n].table) == 0
  }

  ghost predicate NothingLost(p: Site, steps: seq<Step>)
    requires PermittedRun(p, steps)
    decreases |steps|
  {
    steps != [] ==> !Loses(p, steps[0]) && NothingLost(Next(p, steps[0]), steps[1..])
  }

  /** The consumer's value indices are the producer's. */
  ghost predicate IndicesAgree(w: World, c: Container.State) {
    forall n :: n in w.subscribed && n in w.signals && n in c.signals && w.signals[n].Sync? ==>
      c.signals[n].valueIndex == w.signals[n].index
  }

  ghost predicate NoLag(w: World) {
    forall n :: n in w.subscribed && n in w.signals && w.signals[n].Sync? ==> w.signals[n].dropped == 0
  }

  lemma IndicesAgreeIff(w: World, c: Container.State)
    requires Lockstep.InStep(w, c)
    ensures IndicesAgree(w, c) <==> NoLag(w)
  {
    forall n | n in w.subscribed && n in w.signals && w.signals[n].Sync?
      ensures n in c.signals && (c.signals[n].valueIndex == w.signals[n].index <==> w.signals[n].dropped == 0)
    {
      Lockstep.IndexAgreesIff(w, c, n);
    }
  }

  /** For every signal a step's callbacks deliver exactly the samples taken, at their times. */
  ghost predicate StepTrue(p: Site, events: seq<Event>, step: Step) {
    forall n :: n in p.world.signals && p.world.signals[n].Sync? ==>
      Delivered(n, events, Layout.Width(p.world.signals[n].base)) == TakenIn(p, n, step)
  }

  /** Before and after every step the indices agree, and every step delivers what it takes. */
  ghost predicate TrueThroughout(p: Site, c: Container.State, steps: seq<Step>)
    requires PermittedRun(p, steps)
    decreases |steps|
  {
    && IndicesAgree(p.world, c)
    && (steps != [] ==>
         var r := Session.ReceiveAll(c, Sent(p, steps[0]));
         StepTrue(p, r.events, steps[0]) && TrueThroughout(Next(p, steps[0]), r.state, steps[1..]))
  }

  lemma NoLagStep(p: Site, step: Step)
    requires Possible(p, step) && NoLag(p.world) && !Loses(p, step)
    ensures NoLag(Next(p, step).world)
  {
  }

  /** Only AddData on n itself delivers samples for the synchronous signal n. */
  lemma OthersDeliverNothing(p: Site, n: nat, step: Step, width: nat)
    requires Possible(p, step) && n in p.world.signals && p.world.signals[n].Sync?
    requires !(step.Operate? && step.op.AddData? && step.op.n == n && n in p.world.subscribed
               && ClockIn(p.world, p.world.signals[n].table) != 0)
    ensures Delivered(n, Callbacks(p, step), width) == []
  {
    NoneDelivered(n, Callbacks(p, step), width);
  }

  lemma StepDelivers(p: Site, n: nat, step: Step)
    requires WellFormed(p.world) && Possible(p, step) && NoLag(p.world) && !Loses(p, step)
    requires n in p.world.signals && p.world.signals[n].Sync?
    ensures Delivered(n, Callbacks(p, step), Layout.Width(p.world.signals[n].base)) == TakenIn(p, n, step)
  {
    hide WellFormed, Expected, Taken, Delivered, Permitted, ClockFor;
    var w := p.world;
    var width := Layout.Width(w.signals[n].base);
    if step.Operate? && step.op.AddData? && step.op.n == n && n in w.subscribed {
      if ClockIn(w, w.signals[n].table) != 0 {
        AddDataSamples(w, n, step.op.samples);
      } else {
        OthersDeliverNothing(p, n, step, width);
        assert Taken(ClockFor(w, n), n, w.signals[n].index, []) == [];
      }
    } else {
      OthersDeliverNothing(p, n, step, width);
    }
  }

  /** A step that loses samples delivers none of them. */
  lemma LossyStep(p: Site, step: Step)
    requires Possible(p, step) && Loses(p, step)
    ensures !StepTrue(p, Callbacks(p, step), step)
  {
    hide Expected, Delivered, Permitted;
    var n := step.op.n;
    var width := Layout.Width(p.world.signals[n].base);
    OthersDeliverNothing(p, n, step, width);
    assert |TakenIn(p, n, step)| == |step.op.samples|;
  }

  /** Over every permitted run the consumer's indices agree with the producer's throughout, and
      every sample taken while its signal is subscribed is delivered at its time, if and only if no
      step adds samples to a subscribed signal whose table has no subscribed time signal. */
  lemma {:induction false} TrueRunIff(p: Site, c: Container.State, steps: seq<Step>)
    requires Lockstep.InStep(p.world, c) && PermittedRun(p, steps) && IndicesAgree(p.world, c)
    ensures TrueThroughout(p, c, steps) <==> NothingLost(p, steps)
    decreases |steps|
  {
    hide Lockstep.InStep, Next, Callbacks, Sent, Possible, IndicesAgree, NoLag, Loses, StepTrue, Session.ReceiveAll;
    if steps != [] {
      var step := steps[0];
      var r := Session.ReceiveAll(c, Sent(p, step));
      LockstepStep(p, c, step);
      if Loses(p, step) {
        LossyStep(p, step);
      } else {
        TrueStep(p, c, step);
        TrueRunIff(Next(p, step), r.state, steps[1..]);
      }
    }
  }

  lemma TrueStep(p: Site, c: Container.State, step: Step)
    requires Lockstep.InStep(p.world, c) && Possible(p, step) && IndicesAgree(p.world, c) && !Loses(p, step)
    ensures var r := Session.ReceiveAll(c, Sent(p, step));
            StepTrue(p, r.events, step) && IndicesAgree(Next(p, step).world, r.state)
  {
    hide Next, Callbacks, Sent, Possible, IndicesAgree, NoLag, Loses, Session.ReceiveAll, Delivered, TakenIn,
         Lockstep.Matches, WellFormed;
    var r := Session.ReceiveAll(c, Sent(p, step));
    LockstepStep(p, c, step);
    IndicesAgreeIff(p.world, c);
    NoLagStep(p, step);
    IndicesAgreeIff(Next(p, step).world, r.state);
    forall n | n in p.world.signals && p.world.signals[n].Sync?
      ensures Delivered(n, r.events, Layout.Width(p.world.signals[n].base)) == TakenIn(p, n, step)
    {
      StepDelivers(p, n, step);
    }
  }

  /** All samples of signal n that a run takes. */
  ghost function TakenAll(p: Site, n: nat, steps: seq<Step>): seq<Sample>
    requires PermittedRun(p, steps) && n in p.world.signals && p.world.signals[n].Sync?
    decreases |steps|
  {
    if steps == [] then [] else
      KindStays(p, n, steps[0]);
      TakenIn(p, n, steps[0]) + TakenAll(Next(p, steps[0]), n, steps[1..])
  }

  lemma KindStays(p: Site, n: nat, step: Step)
    requires Possible(p, step) && n in p.world.signals && p.world.signals[n].Sync?
    ensures n in Next(p, step).world.signals && Next(p, step).world.signals[n].Sync?
    ensures Next(p, step).world.signals[n].base == p.world.signals[n].base
    ensures Next(p, step).world.signals[n].table == p.world.signals[n].table
  {
  }

  /** Over every permitted run that loses nothing, with descriptions, time starts, rate changes,
      announcements and other signals in between, the consumer is delivered exactly the samples
      signal n took while it was subscribed, each once, in order and at its time. */
  lemma {:induction false} SamplesOfRun(p: Site, c: Container.State, n: nat, steps: seq<Step>)
    requires Lockstep.InStep(p.world, c) && PermittedRun(p, steps) && IndicesAgree(p.world, c)
    requires NothingLost(p, steps) && n in p.world.signals && p.world.signals[n].Sync?
    ensures Delivered(n, CallbacksAll(p, steps), Layout.Width(p.world.signals[n].base)) == TakenAll(p, n, steps)
    decreases |steps|
  {
    hide Lockstep.InStep, Next, Callbacks, Sent, Possible, IndicesAgree, Loses, Session.ReceiveAll, Delivered, TakenIn;
    var width := Layout.Width(p.world.signals[n].base);
    if steps == [] {
      NoneDelivered(n, [], width);
    } else {
      var step, p' := steps[0], Next(p, steps[0]);
      LockstepStep(p, c, step);
      TrueStep(p, c, step);
      KindStays(p, n, step);
      SamplesOfRun(p', Session.ReceiveAll(c, Sent(p, step)).state, n, steps[1..]);
      DeliveredConcat(n, Callbacks(p, step), CallbacksAll(p', steps[1..]), width);
    }
  }

  // ------------------------------------------------------------------ a time signal that comes late

  /** A value signal and a time signal of one table. */
  function Pair(index: Word64, dropped: Word64, announced: Word64, subscribed: set<nat>): World {
    World(map[1 := Sync("v", "t", Layout.U8, NO_ATTRIBUTES, index, dropped, NO_ATTRIBUTES),
              2 := Clock("c", "t", 1000, 1, 0, announced, 0)], subscribed)
  }

  lemma PairSubscribesValue()
    ensures Permitted(Pair(0, 0, 0, {}), SubscribeSignal(1))
    ensures Apply(Pair(0, 0, 0, {}), SubscribeSignal(1)) == Pair(0, 0, 0, {1})
  {
    assert Apply(Pair(0, 0, 0, {}), SubscribeSignal(1)).signals == Pair(0, 0, 0, {1}).signals;
  }

  lemma PairLosesSample()
    ensures Applicable(Pair(0, 0, 0, {1}), AddData(1, [[0]]))
    ensures Apply(Pair(0, 0, 0, {1}), AddData(1, [[0]])) == Pair(1, 1, 0, {1})
  {
    var w := Pair(0, 0, 0, {1});
    assert [[0]][..0] == [];
    assert ClockIn(w, "t") == 0;
    assert Apply(w, AddData(1, [[0]])).signals == Pair(1, 1, 0, {1}).signals;
  }

  lemma PairSubscribesClock()
    ensures Permitted(Pair(1, 1, 0, {1}), SubscribeSignal(2))
    ensures Apply(Pair(1, 1, 0, {1}), SubscribeSignal(2)) == Pair(1, 1, 1, {1, 2})
  {
    assert Apply(Pair(1, 1, 0, {1}), SubscribeSignal(2)).signals == Pair(1, 1, 1, {1, 2}).signals;
  }

  lemma PairSamples(samples: seq<seq<Byte>>)
    requires samples == [[0]]
    ensures var w := Pair(1, 1, 1, {1, 2});
            && Applicable(w, AddData(1, samples)) && ClockFor(w, 1) == w.signals[2]
            && Delivered(1, Expected(w, AddData(1, samples)), 1) == [Sample(1, 0, [0])]
            && Taken(w.signals[2], 1, 1, samples) == [Sample(1, 1, [0])]
  {
    hide Expected, Delivered;
    var w := Pair(1, 1, 1, {1, 2});
    assert samples[..0] == [];
    assert IsClock(w, 2, "t");
    ClockUnique(w, 2, "t");
    AddDataSamples(w, 1, samples);
    assert Taken(w.signals[2], 1, 0, samples) == [Sample(1, 0, [0])];
  }

  /** A value signal is subscribed and fed before its time signal: the first sample is lost, and the
      second one, with index 1 and hence taken at time 1, is delivered at time 0. */
  lemma LateClock(held: Announcements.Held)
    ensures var p, q := Site(Pair(0, 0, 0, {}), held), Site(Pair(1, 1, 1, {1, 2}), held);
            var add := Operate(AddData(1, [[0]]));
            var steps := [Operate(SubscribeSignal(1)), add, Operate(SubscribeSignal(2))];
            && WellFormed(p.world) && PermittedRun(p, steps) && NextAll(p, steps) == q && Possible(q, add)
            && Delivered(1, Callbacks(q, add), 1) == [Sample(1, 0, [0])]
            && TakenIn(q, 1, add) == [Sample(1, 1, [0])]
  {
    hide Expected, Delivered, Taken, Apply, ClockFor, AllOfLength;
    PairSubscribesValue();
    PairLosesSample();
    PairSubscribesClock();
    PairSamples([[0]]);
    LateRun(Site(Pair(0, 0, 0, {}), held), Site(Pair(0, 0, 0, {1}), held), Site(Pair(1, 1, 0, {1}), held),
            Site(Pair(1, 1, 1, {1, 2}), held),
            Operate(SubscribeSignal(1)), Operate(AddData(1, [[0]])), Operate(SubscribeSignal(2)));
  }

  lemma LateRun(p: Site, p1: Site, p2: Site, p3: Site, a: Step, b: Step, c: Step)
    requires Possible(p, a) && p1 == Next(p, a) && Possible(p1, b) && p2 == Next(p1, b)
    requires Possible(p2, c) && p3 == Next(p2, c)
    ensures PermittedRun(p, [a, b, c]) && NextAll(p, [a, b, c]) == p3
  {
    hide Next, Possible;
    assert [a, b, c][1..] == [b, c] && [b, c][1..] == [c] && [c][1..] == [];
    assert PermittedRun(p2, [c]) && NextAll(p2, [c]) == p3;
    assert PermittedRun(p1, [b, c]) && NextAll(p1, [b, c]) == p3;
  }

  // ------------------------------------------------------------------ regrouping packets in a run

  lemma {:induction false} WholeConcat(a: seq<seq<Byte>>, b: seq<seq<Byte>>, k: nat)
    requires AllOfLength(a, k) && AllOfLength(b, k)
    ensures AllOfLength(a + b, k)
    decreases |b|
  {
    if b == [] {
      assert a + b == a;
    } else {
      assert (a + b)[..|a + b| - 1] == a + b[..|b| - 1];
      WholeConcat(a, b[..|b| - 1], k);
    }
  }

  /** Two packets leave the producer and the consumer's view of it as one packet does. */
  lemma MergedWorld(w: World, n: nat, a: seq<seq<Byte>>, b: seq<seq<Byte>>)
    requires WellFormed(w) && Applicable(w, AddData(n, a)) && Applicable(Apply(w, AddData(n, a)), AddData(n, b))
    ensures Applicable(w, AddData(n, a + b))
    ensures var w1 := Apply(w, AddData(n, a));
            && ClockFor(w1, n) == ClockFor(w, n) && w1.signals[n].index == Wrap(w.signals[n].index + |a|)
            && Apply(w1, AddData(n, b)) == Apply(w, AddData(n, a + b))
  {
    hide WellFormed, AllOfLength, Apply, Wrap;
    var e := w.signals[n];
    var w1 := Apply(w, AddData(n, a));
    AddDataApplied(w, n, a);
    ClockStays(w, n, w1.signals[n], e.table);
    WholeConcat(a, b, Layout.Width(e.base));
    AddDataApplied(w1, n, b);
    AddDataApplied(w, n, a + b);
    WrapAdd(e.index + |a|, |b|);
    WrapAdd(e.dropped + LostOf(w, n, a), LostOf(w, n, b));
  }

  ghost function LostOf(w: World, n: nat, samples: seq<seq<Byte>>): nat
    requires n in w.signals
  {
    if n in w.subscribed && ClockIn(w, w.signals[n].table) == 0 then |samples| else 0
  }

  lemma AddDataApplied(w: World, n: nat, samples: seq<seq<Byte>>)
    requires Applicable(w, AddData(n, samples))
    ensures Apply(w, AddData(n, samples))
         == w.(signals := w.signals[n := Lockstep.Advanced(w.signals[n], |samples|, LostOf(w, n, samples))])
  {
  }

  lemma MergedTaken(p: Site, n: nat, k: nat, a: seq<seq<Byte>>, b: seq<seq<Byte>>)
    requires WellFormed(p.world) && n in p.world.signals && p.world.signals[n].Sync?
    requires Possible(p, Operate(AddData(k, a))) && Possible(Next(p, Operate(AddData(k, a))), Operate(AddData(k, b)))
    ensures var p1 := Next(p, Operate(AddData(k, a)));
            && n in p1.world.signals && p1.world.signals[n].Sync?
            && TakenIn(p, n, Operate(AddData(k, a))) + TakenIn(p1, n, Operate(AddData(k, b)))
               == TakenIn(p, n, Operate(AddData(k, a + b)))
  {
    hide WellFormed, Taken, ClockFor, TimeOf;
    KindStays(p, n, Operate(AddData(k, a)));
    if k == n && n in p.world.subscribed {
      var clock, index := ClockFor(p.world, n), p.world.signals[n].index;
      MergedWorld(p.world, n, a, b);
      TakenConcat(clock, n, index, a, b);
      TakenModulo(clock, n, index + |a|, 0, b);
    }
  }

  /** Two packets deliver what one packet delivers, whether or not samples were refused before. */
  lemma MergedDelivered(p: Site, n: nat, k: nat, a: seq<seq<Byte>>, b: seq<seq<Byte>>)
    requires WellFormed(p.world) && n in p.world.signals && p.world.signals[n].Sync?
    requires Possible(p, Operate(AddData(k, a))) && Possible(Next(p, Operate(AddData(k, a))), Operate(AddData(k, b)))
    requires Possible(p, Operate(AddData(k, a + b)))
    ensures var width := Layout.Width(p.world.signals[n].base);
            Delivered(n, Callbacks(p, Operate(AddData(k, a))), width)
            + Delivered(n, Callbacks(Next(p, Operate(AddData(k, a))), Operate(AddData(k, b))), width)
            == Delivered(n, Callbacks(p, Operate(AddData(k, a + b))), width)
  {
    hide WellFormed, Taken, ClockFor, TimeOf, Expected, Delivered, Apply, AllOfLength;
    var w, width := p.world, Layout.Width(p.world.signals[n].base);
    var p1 := Next(p, Operate(AddData(k, a)));
    KindStays(p, n, Operate(AddData(k, a)));
    if k == n && Streaming(w, n) {
      var e, clock := w.signals[n], ClockFor(w, n);
      AddDataWorld(w, n, a);
      AddDataSamples(w, n, a);
      AddDataSamples(p1.world, n, b);
      AddDataSamples(w, n, a + b);
      TakenConcat(clock, n, e.index - e.dropped, a, b);
      TakenModulo(clock, n, e.index + |a|, e.dropped, b);
    } else {
      NotStreaming(w, n, k, a);
      OthersDeliverNothing(p, n, Operate(AddData(k, a)), width);
      OthersDeliverNothing(p1, n, Operate(AddData(k, b)), width);
      OthersDeliverNothing(p, n, Operate(AddData(k, a + b)), width);
    }
  }

  lemma NotStreaming(w: World, n: nat, k: nat, samples: seq<seq<Byte>>)
    requires WellFormed(w) && Applicable(w, AddData(k, samples)) && n in w.signals && w.signals[n].Sync?
    requires !(k == n && Streaming(w, n))
    ensures var w1 := Apply(w, AddData(k, samples));
            && w1.subscribed == w.subscribed && n in w1.signals && w1.signals[n].table == w.signals[n].table
            && (k == n && n in w.subscribed ==> ClockIn(w1, w.signals[n].table) == 0)
  {
    hide WellFormed;
    AddDataApplied(w, k, samples);
    ClockStays(w, k, Lockstep.Advanced(w.signals[k], |samples|, LostOf(w, k, samples)), w.signals[n].table);
  }

  lemma WellFormedStays(w: World, op: Op)
    requires WellFormed(w) && Applicable(w, op) && Proper(op)
    ensures WellFormed(Apply(w, op))
  {
    hide Expected;
    var w' := Apply(w, op);
    Lockstep.WellFormedUpdate(w, op.n, w'.signals[op.n], w'.subscribed);
    assert w.signals[op.n := w'.signals[op.n]] == w'.signals;
  }

  /** Anywhere in a run, with or without loss, two consecutive packets of a signal may be sent as
      one: the consumer is delivered the same samples of every signal at the same times, they are
      taken at the same times, and the run ends in the same state. */
  lemma {:induction false} MergeIrrelevant(p: Site, n: nat, before: seq<Step>, k: nat,
                                           a: seq<seq<Byte>>, b: seq<seq<Byte>>, after: seq<Step>)
    requires WellFormed(p.world) && n in p.world.signals && p.world.signals[n].Sync?
    requires PermittedRun(p, before + ([Operate(AddData(k, a))] + ([Operate(AddData(k, b))] + after)))
    ensures var split := before + ([Operate(AddData(k, a))] + ([Operate(AddData(k, b))] + after));
            var merged := before + ([Operate(AddData(k, a + b))] + after);
            && PermittedRun(p, merged)
            && NextAll(p, merged) == NextAll(p, split)
            && TakenAll(p, n, merged) == TakenAll(p, n, split)
            && Delivered(n, CallbacksAll(p, merged), Layout.Width(p.world.signals[n].base))
               == Delivered(n, CallbacksAll(p, split), Layout.Width(p.world.signals[n].base))
    decreases |before|
  {
    hide WellFormed, Next, Possible, TakenIn, Callbacks, Delivered, PermittedRun, TakenAll, NextAll, CallbacksAll;
    var split := before + ([Operate(AddData(k, a))] + ([Operate(AddData(k, b))] + after));
    var merged := before + ([Operate(AddData(k, a + b))] + after);
    if before == [] {
      assert split == [Operate(AddData(k, a))] + ([Operate(AddData(k, b))] + after);
      assert merged == [Operate(AddData(k, a + b))] + after;
      MergeFirst(p, n, k, a, b, after);
    } else {
      var step, rest := before[0], before[1..];
      var split', merged' := rest + ([Operate(AddData(k, a))] + ([Operate(AddData(k, b))] + after)),
                             rest + ([Operate(AddData(k, a + b))] + after);
      assert split == [step] + split' && merged == [step] + merged';
      Unfold(p, n, step, split');
      NextWellFormed(p, step);
      KindStays(p, n, step);
      MergeIrrelevant(Next(p, step), n, rest, k, a, b, after);
      Unfold(p, n, step, merged');
    }
  }

  lemma NextWellFormed(p: Site, step: Step)
    requires WellFormed(p.world) && Possible(p, step)
    ensures WellFormed(Next(p, step).world)
  {
    hide WellFormed, Apply, Applicable;
    if step.Operate? {
      WellFormedStays(p.world, step.op);
    }
  }

  /** A run unfolded by one step. */
  lemma Unfold(p: Site, n: nat, step: Step, after: seq<Step>)
    requires n in p.world.signals && p.world.signals[n].Sync?
    ensures PermittedRun(p, [step] + after) <==> Possible(p, step) && PermittedRun(Next(p, step), after)
    ensures PermittedRun(p, [step] + after) ==>
              var p', width := Next(p, step), Layout.Width(p.world.signals[n].base);
              && n in p'.world.signals && p'.world.signals[n].Sync?
              && NextAll(p, [step] + after) == NextAll(p', after)
              && TakenAll(p, n, [step] + after) == TakenIn(p, n, step) + TakenAll(p', n, after)
              && Delivered(n, CallbacksAll(p, [step] + after), width)
                 == Delivered(n, Callbacks(p, step), width) + Delivered(n, CallbacksAll(p', after), width)
  {
    hide Next, Possible, TakenIn, Callbacks, Delivered;
    var steps := [step] + after;
    assert steps[0] == step && steps[1..] == after;
    if PermittedRun(p, steps) {
      KindStays(p, n, step);
      DeliveredConcat(n, Callbacks(p, step), CallbacksAll(Next(p, step), after), Layout.Width(p.world.signals[n].base));
    }
  }

  lemma MergeFirst(p: Site, n: nat, k: nat, a: seq<seq<Byte>>, b: seq<seq<Byte>>, after: seq<Step>)
    requires WellFormed(p.world) && n in p.world.signals && p.world.signals[n].Sync?
    requires PermittedRun(p, [Operate(AddData(k, a))] + ([Operate(AddData(k, b))] + after))
    ensures var split := [Operate(AddData(k, a))] + ([Operate(AddData(k, b))] + after);
            var merged := [Operate(AddData(k, a + b))] + after;
            && PermittedRun(p, merged)
            && NextAll(p, merged) == NextAll(p, split)
            && TakenAll(p, n, merged) == TakenAll(p, n, split)
            && Delivered(n, CallbacksAll(p, merged), Layout.Width(p.world.signals[n].base))
               == Delivered(n, CallbacksAll(p, split), Layout.Width(p.world.signals[n].base))
  {
    hide WellFormed, Apply, TakenIn, Callbacks, Delivered, PermittedRun, TakenAll, NextAll, CallbacksAll, AllOfLength;
    var first, second, both := Operate(AddData(k, a)), Operate(AddData(k, b)), Operate(AddData(k, a + b));
    Unfold(p, n, first, [second] + after);
    KindStays(p, n, first);
    Unfold(Next(p, first), n, second, after);
    MergedWorld(p.world, k, a, b);
    Unfold(p, n, both, after);
    MergedTaken(p, n, k, a, b);
    MergedDelivered(p, n, k, a, b);
  }
}
