/** Producer and consumer in lockstep: every operation the discipline permits is accepted, the
    consumer's view of each subscribed signal follows the producer, and the callbacks are exactly
    the expected ones. */
module Lockstep {
  import opened Words
  import opened Values
  import opened Messages
  import opened Signals
  import opened Container
  import opened Producer
  import Layout
  import Tables

  /** What the consumer knows about a subscribed signal. The value index lags behind the producer's
      by exactly the samples that were refused since the last description. */
  ghost predicate Matches(e: Producer.Signal, s: SignalState) {
    && s.tableId == e.table
    && s.isTime == e.Clock?
    && s.signalId == e.id
    && match e
       case Sync(_, _, base, _, index, dropped, seen) =>
         && s.rule == RuleExplicit && s.valueSize == Layout.Width(base) && s.valueType == SampleOf(base)
         && Wrap(s.valueIndex + dropped) == index
         && AttributesOf(s) == seen && s.unit.quantity != QUANTITY_TIME
       case Const(_, _, base, _, start, seen) =>
         && s.rule == RuleConstant && s.valueSize == Layout.Width(base) && s.valueType == SampleOf(base)
         && s.constantStart == start
         && AttributesOf(s) == seen && s.unit.quantity != QUANTITY_TIME
       case Clock(_, _, ticksPerSecond, _, _, announced, anchor) =>
         && s.rule == RuleLinear && s.valueSize == 8 && s.valueType == SampleOf(Layout.U64)
         && s.delta == announced && s.time == anchor && s.valueIndex == 0
         && AttributesOf(s) == Attributes(Unit(5457219, "s", "time"), NO_RANGE, ONE_TO_ONE)
         && (ticksPerSecond != 0 ==>
              s.timeBaseFrequency == ticksPerSecond && s.resolution == Resolution(1, ticksPerSecond))
  }

  /** The attributes that the consumer has. */
  function AttributesOf(s: SignalState): Attributes {
    Attributes(s.unit, s.range, s.scaling)
  }

  ghost predicate InStep(w: World, c: State) {
    && WellFormed(w)
    && c.signals.Keys == w.subscribed
    && (forall n :: n in w.subscribed ==> Matches(w.signals[n], c.signals[n]))
    && Tables.Exact(c, w.subscribed)
  }

  // ------------------------------------------------------------------ the table index seen from the producer

  lemma ClockNumber(w: World, c: State, n: nat)
    requires InStep(w, c) && n in w.subscribed
    ensures w.signals[n].table in c.tables
    ensures c.tables[w.signals[n].table].time == ClockIn(w, w.signals[n].table)
  {
    Tables.ExactIndexed(c, w.subscribed);
    var t := w.signals[n].table;
    assert Tables.Filed(c, n);
    assert Tables.Sound(c, w.subscribed, t);
    var k := ClockIn(w, t);
    if k != 0 {
      assert IsClock(w, k, t) && Tables.Filed(c, k);
    } else if c.tables[t].time != 0 {
      assert IsClock(w, c.tables[t].time, t);
    }
  }

  lemma ValueSignals(w: World, c: State, n: nat)
    requires InStep(w, c) && n in w.subscribed
    ensures HasValueSignal(c, w.signals[n].table) <==> exists k :: IsValueSignal(w, k, w.signals[n].table)
  {
    Tables.ExactIndexed(c, w.subscribed);
    var t := w.signals[n].table;
    assert Tables.Filed(c, n);
    assert Tables.Sound(c, w.subscribed, t);
    if k :| IsValueSignal(w, k, t) {
      assert Tables.Filed(c, k);
    }
    if HasValueSignal(c, t) {
      var k :| k in c.tables[t].data;
      assert IsValueSignal(w, k, t);
    }
  }

  // ------------------------------------------------------------------ descriptions

  /** A state a signal can be in when its description arrives: just subscribed, or in step. */
  ghost predicate Awaits(e: Producer.Signal, s: SignalState) {
    Matches(e, s) || (s == INITIAL.(signalId := e.id) && Untold(e) == e)
  }

  lemma DefinitionAccepted(e: Producer.Signal, s: SignalState)
    ensures Define(s, DefinitionOf(e)).accepted <==> Describable(e)
  {
    DefineAcceptedIff(s, DefinitionOf(e));
  }

  lemma DefinitionEffect(e: Producer.Signal, s: SignalState)
    requires Describable(e)
    ensures var s' := Define(s, DefinitionOf(e)).state;
            && s'.tableId == s.tableId && s'.valueIndex == s.valueIndex && s'.time == s.time
            && s'.signalId == s.signalId
            && s'.constantStart == (if e.Const? && e.start.Some? then e.start else s.constantStart)
            && s'.range == s.range.Parse(DefinitionOf(e).range)
            && s'.scaling == s.scaling.Parse(DefinitionOf(e).scaling)
            && s'.isTime == (s.isTime || s'.unit.quantity == QUANTITY_TIME)
            && s'.unit == s.unit.Parse(DefinitionOf(e).unit)
            && s'.rule == (match e case Sync(_, _, _, _, _, _, _) => RuleExplicit
                                   case Const(_, _, _, _, _, _) => RuleConstant
                                   case Clock(_, _, _, _, _, _, _) => RuleLinear)
            && (e.Clock? ==> s'.delta == e.delta)
            && (!e.Clock? ==> s'.valueSize == Layout.Width(e.base) && s'.valueType == SampleOf(e.base))
            && (e.Clock? ==> s'.valueSize == 8 && s'.valueType == SampleOf(Layout.U64))
            && (e.Clock? && e.ticksPerSecond != 0 ==>
                 s'.timeBaseFrequency == e.ticksPerSecond && s'.resolution == Resolution(1, e.ticksPerSecond))
  {
    hide Define, Quotient, Layout.ValueSize;
    DefinitionAccepted(e, s);
    DefineFields(s, DefinitionOf(e));
    if e.Clock? {
      WholeQuotient(e.ticksPerSecond);
      ScalarSize(Layout.U64);
    } else {
      ScalarSize(e.base);
    }
  }

  lemma WholeQuotient(a: Word64)
    ensures Wrap(Quotient(a, 1)) == a
  {
    QuotientOfProduct(a, 1);
  }

  lemma ScalarSize(base: Layout.BaseType)
    ensures Layout.ValueSize(Layout.Node(Layout.NoDimensions, Layout.Base(base))) == Layout.Width(base)
  {
    Layout.BaseSize(base);
  }

  /** A description is accepted in any state, unless it gives a time signal a delta of zero or a
      constant signal a start value that is not a number. */
  lemma DescriptionAccepted(e: Producer.Signal, s: SignalState)
    ensures Describe(s, DescriptionOf(e)).accepted <==> Describable(e)
  {
    DefinitionAccepted(e, s.(tableId := e.table, valueIndex := if e.Sync? then e.index else s.valueIndex));
  }

  lemma DescriptionEffect(e: Producer.Signal, s: SignalState)
    requires Awaits(e, s) && Describable(e)
    requires !e.Clock? ==> SilentOnTime(e.own.unit)
    ensures Matches(AfterDescription(e), Describe(s, DescriptionOf(e)).state)
  {
    hide Define;
    DefinitionEffect(e, s.(tableId := e.table, valueIndex := if e.Sync? then e.index else s.valueIndex));
  }

  // ------------------------------------------------------------------ changing one signal

  /** The producer's signal n changes in a way that keeps its kind and table, and it does not
      become a signal of time. */
  predicate Similar(e: Producer.Signal, e': Producer.Signal) {
    && e.Clock? == e'.Clock? && e.table == e'.table
    && (!e.Clock? && SilentOnTime(e.own.unit) ==> SilentOnTime(e'.own.unit))
  }

  lemma WellFormedUpdate(w: World, n: nat, e': Producer.Signal, subscribed: set<nat>)
    requires WellFormed(w) && n in w.signals && Similar(w.signals[n], e') && subscribed <= w.signals.Keys
    ensures WellFormed(World(w.signals[n := e'], subscribed))
  {
  }

  /** Both sides change signal n, and the consumer keeps its place in the index. */
  lemma InStepUpdate(w: World, c: State, n: nat, e': Producer.Signal, c': State)
    requires WellFormed(w) && n in w.signals && Similar(w.signals[n], e')
    requires c.signals.Keys == w.subscribed
    requires forall k :: k in w.subscribed ==> Matches(w.signals[k], c.signals[k])
    requires c'.signals.Keys == w.subscribed
    requires forall k :: k in w.subscribed && k != n ==> c'.signals[k] == c.signals[k]
    requires n in w.subscribed ==> Matches(e', c'.signals[n])
    requires Tables.Exact(c', w.subscribed)
    ensures InStep(w.(signals := w.signals[n := e']), c')
  {
    WellFormedUpdate(w, n, e', w.subscribed);
  }

  // ------------------------------------------------------------------ meta operations

  lemma OneMeta(c: State, n: nat, m: Message)
    ensures Tables.ProcessAll(c, [Tables.Meta(n, m)]) == ProcessMeta(c, n, m)
  {
    assert [Tables.Meta(n, m)][1..] == [];
  }

  lemma TwoMetas(c: State, n: nat, m1: Message, m2: Message)
    ensures var r1 := ProcessMeta(c, n, m1);
            var r2 := ProcessMeta(r1.state, n, m2);
            Tables.ProcessAll(c, [Tables.Meta(n, m1), Tables.Meta(n, m2)])
            == if r1.accepted then Result(r2.state, r1.events + r2.events, r2.accepted) else r1
  {
    var run := [Tables.Meta(n, m1), Tables.Meta(n, m2)];
    assert run[1..] == [Tables.Meta(n, m2)];
    OneMeta(ProcessMeta(c, n, m1).state, n, m2);
  }

  lemma OneData(c: State, n: nat, data: seq<Byte>)
    ensures var r := ProcessData(c, n, data);
            Tables.ProcessAll(c, [Tables.Data(n, data)]) == Result(r.state, r.events, true)
  {
    assert [Tables.Data(n, data)][1..] == [];
  }

  /** A table has no second time signal. */
  lemma NoRival(w: World, c: State, described: set<nat>, n: nat)
    requires WellFormed(w) && Tables.Exact(c, described) && described <= w.subscribed + {n} && n in w.signals
    requires forall k :: k in described ==> Matches(w.signals[k], c.signals[k])
    requires w.signals[n].Clock? && w.signals[n].table in c.tables
    ensures c.tables[w.signals[n].table].time in {0, n}
  {
    Tables.ExactIndexed(c, described);
    var t := w.signals[n].table;
    assert Tables.Sound(c, described, t);
    var k := c.tables[t].time;
    if k != 0 {
      assert Matches(w.signals[k], c.signals[k]);
    }
  }

  /** Describing signal n, which is either just subscribed or in step, to the consumer. */
  lemma DescriptionStep(w: World, c: State, described: set<nat>, n: nat, e: Producer.Signal)
    requires WellFormed(w) && n in w.signals && Similar(w.signals[n], e)
    requires Tables.Exact(c, described) && described <= w.subscribed && c.signals.Keys == described + {n}
    requires forall k :: k in described ==> Matches(w.signals[k], c.signals[k])
    requires Awaits(e, c.signals[n]) && (n in described ==> Matches(e, c.signals[n]))
    requires Describable(e)
    ensures var r := ProcessMeta(c, n, DescriptionOf(e));
            && r.accepted && r.events == [MetaEvent(n, DescriptionOf(e))]
            && r.state.signals.Keys == c.signals.Keys
            && (forall k :: k in described && k != n ==> r.state.signals[k] == c.signals[k])
            && Matches(AfterDescription(e), r.state.signals[n])
            && Tables.Exact(r.state, described + {n})
  {
    hide Tables.Exact, Define;
    var s := c.signals[n];
    var m := DescriptionOf(e);
    DescriptionAccepted(e, s);
    DescriptionEffect(e, s);
    if e.Clock? && e.table in c.tables {
      NoRival(w, c, described, n);
    }
    Tables.MetaExactIff(c, described, n, m);
  }

  /** The acknowledgement creates a fresh signal and leaves the index alone. */
  lemma Acknowledge(c: State, described: set<nat>, n: nat, id: string)
    requires Tables.Exact(c, described) && n !in c.signals
    ensures var m := Subscribe(Some(Text(id)));
            var c' := c.(signals := c.signals[n := INITIAL.(signalId := id)]);
            ProcessMeta(c, n, m) == Result(c', [MetaEvent(n, m)], true) && Tables.Exact(c', described)
  {
    Tables.MetaExactIff(c, described, n, Subscribe(Some(Text(id))));
  }

  /** What the consumer has been told is not part of a description. */
  lemma UntoldSame(e: Producer.Signal)
    ensures var e' := Untold(e);
            && DescriptionOf(e') == DescriptionOf(e) && Similar(e, e') && e'.id == e.id
            && Describable(e') == Describable(e) && Untold(e') == e'
  {
  }

  lemma SubscribeStep(w: World, c: State, n: nat)
    requires InStep(w, c) && n in w.signals && Permitted(w, SubscribeSignal(n))
    ensures var op := SubscribeSignal(n);
            var r := Tables.ProcessAll(c, Outgoing(w, op));
            r.accepted && r.events == Expected(w, op) && InStep(Apply(w, op), r.state)
  {
    hide ProcessMeta, Tables.Exact, Tables.ProcessAll, Matches;
    var id := w.signals[n].id;
    var e := Untold(w.signals[n]);
    UntoldSame(w.signals[n]);
    TwoMetas(c, n, Subscribe(Some(Text(id))), DescriptionOf(e));
    Acknowledge(c, w.subscribed, n, id);
    var c1 := c.(signals := c.signals[n := INITIAL.(signalId := id)]);
    DescriptionStep(w, c1, w.subscribed, n, e);
    var r := ProcessMeta(c1, n, DescriptionOf(e));
    WellFormedUpdate(w, n, AfterDescription(e), w.subscribed + {n});
    SubscribedInStep(w, c, n, AfterDescription(e), r.state);
  }

  lemma SubscribedInStep(w: World, c: State, n: nat, e': Producer.Signal, c': State)
    requires InStep(w, c) && n !in w.subscribed && WellFormed(World(w.signals[n := e'], w.subscribed + {n}))
    requires c'.signals.Keys == w.subscribed + {n}
    requires forall k :: k in w.subscribed && k != n ==> c'.signals[k] == c.signals[k]
    requires Matches(e', c'.signals[n]) && Tables.Exact(c', w.subscribed + {n})
    ensures InStep(World(w.signals[n := e'], w.subscribed + {n}), c')
  {
  }

  lemma DescribeStep(w: World, c: State, n: nat)
    requires InStep(w, c) && n in w.signals && Permitted(w, WriteDescription(n))
    ensures var op := WriteDescription(n);
            var r := Tables.ProcessAll(c, Outgoing(w, op));
            r.accepted && r.events == Expected(w, op) && InStep(Apply(w, op), r.state)
  {
    hide Tables.Exact, Tables.ProcessAll, ProcessMeta;
    var e := w.signals[n];
    OneMeta(c, n, DescriptionOf(e));
    assert w.subscribed + {n} == w.subscribed;
    DescriptionStep(w, c, w.subscribed, n, e);
    InStepUpdate(w, c, n, AfterDescription(e), ProcessMeta(c, n, DescriptionOf(e)).state);
  }

  lemma UnsubscribeStep(w: World, c: State, n: nat)
    requires InStep(w, c) && n in w.signals && Permitted(w, UnsubscribeSignal(n))
    ensures var op := UnsubscribeSignal(n);
            var r := Tables.ProcessAll(c, Outgoing(w, op));
            r.accepted && r.events == Expected(w, op) && InStep(Apply(w, op), r.state)
  {
    hide Tables.Exact, Tables.ProcessAll, Detach;
    OneMeta(c, n, Unsubscribe);
    Tables.MetaExactIff(c, w.subscribed, n, Unsubscribe);
  }

  // ------------------------------------------------------------------ data operations

  /** The time stamp formula in wrapping arithmetic, for an index known modulo 2^64. */
  lemma StampArithmetic(anchor: Word64, seen: Word64, i: int, delta: Word64)
    requires seen == Wrap(i)
    ensures Wrap(anchor + Wrap(Wrap(seen - 0) * delta)) == Wrap(anchor + i * delta)
  {
    hide Wrap;
    assert Wrap(seen - 0) == Wrap(i) by { WrapTwice(i); }
    WrapMul(i, delta);
    WrapAdd(i * delta, anchor);
  }

  lemma WrapTwice(i: int)
    ensures Wrap(Wrap(i) - 0) == Wrap(i)
  {
  }

  lemma LagModulo(seen: Word64, dropped: Word64, index: Word64)
    requires Wrap(seen + dropped) == index
    ensures Wrap(index - dropped) == seen
  {
  }

  lemma WholeValues(s: seq<seq<Byte>>, k: nat)
    requires AllOfLength(s, k) && k > 0
    ensures Quotient(|Flatten(s)|, k) == |s|
  {
    FlattenLength(s, k);
    QuotientOfProduct(|s|, k);
  }

  /** A value signal's data is read with the table's time signal, if that is subscribed. */
  lemma ValueData(w: World, c: State, n: nat, data: seq<Byte>)
    requires InStep(w, c) && n in w.subscribed && !w.signals[n].Clock?
    ensures var k := ClockIn(w, w.signals[n].table);
            && (k == 0 ==> ProcessData(c, n, data) == Result(c, [], false))
            && (k != 0 ==>
                 var r := Read(c.signals[n], n, data, Some(c.signals[k]));
                 ProcessData(c, n, data) == Result(c.(signals := c.signals[n := r.state]), r.events, !r.refused))
  {
    ClockNumber(w, c, n);
    assert Matches(w.signals[n], c.signals[n]);
  }

  lemma TimeStampAgrees(e: Producer.Signal, clock: Producer.Signal, s: SignalState, k: SignalState)
    requires e.Sync? && clock.Clock? && Matches(e, s) && Matches(clock, k)
    ensures TimeStamp(k, s.valueIndex) == TimeOf(clock, e.index - e.dropped)
  {
    hide Wrap;
    LagModulo(s.valueIndex, e.dropped, e.index);
    StampArithmetic(clock.anchor, s.valueIndex, e.index - e.dropped, clock.announced);
  }

  /** What reading does with whole explicit values under a linear time signal. */
  lemma ExplicitReading(s: SignalState, k: SignalState, n: nat, data: seq<Byte>, count: nat)
    requires k.rule == RuleLinear && s.rule == RuleExplicit && Quotient(|data|, s.valueSize) == count
    ensures var t := TimeStamp(k, s.valueIndex);
            Read(s, n, data, Some(k)) == Reading(s.(delta := k.delta, valueIndex := Wrap(s.valueIndex + count)),
              [Raw(n, t, data), Values(n, t, data, count, k.delta)], false)
  {
  }

  lemma SyncReading(e: Producer.Signal, clock: Producer.Signal, s: SignalState, k: SignalState,
            n: nat, data: seq<Byte>, count: nat)
    requires e.Sync? && clock.Clock? && Matches(e, s) && Matches(clock, k)
    requires Quotient(|data|, Layout.Width(e.base)) == count
    ensures var r := Read(s, n, data, Some(k));
            var t := TimeOf(clock, e.index - e.dropped);
            && r.events == [Raw(n, t, data), Values(n, t, data, count, clock.announced)]
            && Matches(e.(index := Wrap(e.index + count)), r.state)
  {
    hide Read, TimeOf, TimeStamp;
    TimeStampAgrees(e, clock, s, k);
    ExplicitReading(s, k, n, data, count);
    AdvanceIndex(s.valueIndex, e.dropped, e.index, count);
  }

  lemma ConstReading(e: Producer.Signal, clock: Producer.Signal, s: SignalState, k: SignalState,
            n: nat, data: seq<Byte>, count: nat)
    requires e.Const? && clock.Clock? && Matches(e, s) && Matches(clock, k)
    requires Quotient(|data|, 8 + Layout.Width(e.base)) == count
    ensures var r := Read(s, n, data, Some(k));
            && r.events == [Raw(n, clock.anchor, data), Values(n, clock.anchor, data, count, clock.announced)]
            && Matches(e, r.state)
  {
    hide Quotient, Layout.Width, TimeStamp, EvenMultiple;
    assert IndexedSize(s) == 8 + Layout.Width(e.base);
  }

  /** Data for an unsubscribed signal is refused. */
  lemma StrangerData(w: World, c: State, n: nat, data: seq<Byte>)
    requires InStep(w, c) && n !in w.subscribed
    ensures ProcessData(c, n, data) == Result(c, [], false)
  {
  }

  /** The synchronous signal after `count` samples, of which `lost` were refused. */
  function Advanced(e: Producer.Signal, count: nat, lost: nat): Producer.Signal
    requires e.Sync?
  {
    e.(index := Wrap(e.index + count), dropped := Wrap(e.dropped + lost))
  }

  lemma NoneLost(e: Producer.Signal, count: nat)
    requires e.Sync?
    ensures Advanced(e, count, 0) == e.(index := Wrap(e.index + count))
  {
  }

  lemma Known(w: World, c: State, n: nat)
    requires InStep(w, c) && n in w.subscribed
    ensures n in w.signals && n in c.signals && Matches(w.signals[n], c.signals[n])
  {
  }

  /** A delivered packet of a synchronous signal: the callbacks, and the signal afterwards. */
  lemma SyncDelivered(w: World, c: State, n: nat, data: seq<Byte>, count: nat)
    requires InStep(w, c) && n in w.subscribed && w.signals[n].Sync? && ClockIn(w, w.signals[n].table) != 0
    requires Quotient(|data|, Layout.Width(w.signals[n].base)) == count
    ensures var e, clock := w.signals[n], w.signals[ClockIn(w, w.signals[n].table)];
            var t := TimeOf(clock, e.index - e.dropped);
            && ProcessData(c, n, data).events == [Raw(n, t, data), Values(n, t, data, count, clock.announced)]
            && n in ProcessData(c, n, data).state.signals
            && Matches(Advanced(e, count, 0), ProcessData(c, n, data).state.signals[n])
  {
    hide InStep, TimeOf, Read, Quotient, Matches, ProcessData, Wrap, Layout.Width;
    Known(w, c, n);
    var e := w.signals[n];
    var k := ClockIn(w, e.table);
    Known(w, c, k);
    ValueData(w, c, n, data);
    SyncReading(e, w.signals[k], c.signals[n], c.signals[k], n, data, count);
    NoneLost(e, count);
  }

  /** Data keeps the two sides in step if the addressed signal still matches. */
  lemma DataInStep(w: World, c: State, n: nat, data: seq<Byte>, e': Producer.Signal)
    requires InStep(w, c) && n in w.signals && Similar(w.signals[n], e')
    requires n in w.subscribed ==> n in ProcessData(c, n, data).state.signals
    requires n in w.subscribed ==> Matches(e', ProcessData(c, n, data).state.signals[n])
    ensures InStep(w.(signals := w.signals[n := e']), ProcessData(c, n, data).state)
  {
    DataFrame(c, n, data);
    Tables.DataKeepsExact(c, w.subscribed, n, data);
    InStepUpdate(w, c, n, e', ProcessData(c, n, data).state);
  }

  /** Rewriting a signal with itself changes nothing. */
  lemma SameWorld(w: World, n: nat)
    requires n in w.signals
    ensures w.(signals := w.signals[n := w.signals[n]]) == w
  {
    assert w.signals[n := w.signals[n]] == w.signals;
  }

  lemma SyncLost(w: World, c: State, n: nat, data: seq<Byte>, count: nat)
    requires InStep(w, c) && n in w.subscribed && w.signals[n].Sync? && ClockIn(w, w.signals[n].table) == 0
    ensures ProcessData(c, n, data) == Result(c, [], false)
    ensures Matches(Advanced(w.signals[n], count, count), c.signals[n])
  {
    hide Tables.Exact;
    var e := w.signals[n];
    ValueData(w, c, n, data);
    LoseSamples(c.signals[n].valueIndex, e.dropped, e.index, count);
  }

  lemma AddDataStep(w: World, c: State, n: nat, samples: seq<seq<Byte>>)
    requires InStep(w, c) && Applicable(w, AddData(n, samples))
    ensures var op := AddData(n, samples);
            var r := Tables.ProcessAll(c, Outgoing(w, op));
            r.accepted && r.events == Expected(w, op) && InStep(Apply(w, op), r.state)
  {
    hide ProcessData, Tables.Exact, Matches, WellFormed, TimeOf, Tables.ProcessAll;
    var e := w.signals[n];
    var data := Flatten(samples);
    OneData(c, n, data);
    if n !in w.subscribed {
      StrangerData(w, c, n, data);
      DataInStep(w, c, n, data, Advanced(e, |samples|, 0));
    } else if ClockIn(w, e.table) == 0 {
      SyncLost(w, c, n, data, |samples|);
      DataInStep(w, c, n, data, Advanced(e, |samples|, |samples|));
    } else {
      WholeValues(samples, Layout.Width(e.base));
      SyncDelivered(w, c, n, data, |samples|);
      DataInStep(w, c, n, data, Advanced(e, |samples|, 0));
    }
  }

  lemma AdvanceIndex(seen: Word64, dropped: Word64, index: Word64, k: nat)
    requires Wrap(seen + dropped) == index
    ensures Wrap(Wrap(seen + k) + dropped) == Wrap(index + k)
  {
    WrapAdd(seen + k, dropped);
    WrapAdd(seen + dropped, k);
  }

  lemma LoseSamples(seen: Word64, dropped: Word64, index: Word64, k: nat)
    requires Wrap(seen + dropped) == index
    ensures Wrap(seen + Wrap(dropped + k)) == Wrap(index + k)
  {
    hide Wrap;
    WrapAdd(dropped + k, seen);
    WrapAdd(seen + dropped, k);
  }

  lemma ConstDelivered(w: World, c: State, n: nat, data: seq<Byte>, count: nat)
    requires InStep(w, c) && n in w.subscribed && w.signals[n].Const? && ClockIn(w, w.signals[n].table) != 0
    requires Quotient(|data|, 8 + Layout.Width(w.signals[n].base)) == count
    ensures var clock := w.signals[ClockIn(w, w.signals[n].table)];
            && ProcessData(c, n, data).events
               == [Raw(n, clock.anchor, data), Values(n, clock.anchor, data, count, clock.announced)]
            && n in ProcessData(c, n, data).state.signals
            && Matches(w.signals[n], ProcessData(c, n, data).state.signals[n])
  {
    hide InStep, Read, Quotient, Matches, ProcessData, Layout.Width;
    Known(w, c, n);
    var e := w.signals[n];
    var k := ClockIn(w, e.table);
    Known(w, c, k);
    ValueData(w, c, n, data);
    ConstReading(e, w.signals[k], c.signals[n], c.signals[k], n, data, count);
  }

  lemma AddConstantsStep(w: World, c: State, n: nat, entries: seq<seq<Byte>>)
    requires InStep(w, c) && Applicable(w, AddConstants(n, entries))
    ensures var op := AddConstants(n, entries);
            var r := Tables.ProcessAll(c, Outgoing(w, op));
            r.accepted && r.events == Expected(w, op) && InStep(Apply(w, op), r.state)
  {
    hide ProcessData, Tables.Exact, Matches, WellFormed, Tables.ProcessAll;
    var e := w.signals[n];
    var data := Flatten(entries);
    OneData(c, n, data);
    if n !in w.subscribed {
      StrangerData(w, c, n, data);
    } else if ClockIn(w, e.table) == 0 {
      ValueData(w, c, n, data);
    } else {
      WholeValues(entries, 8 + Layout.Width(e.base));
      ConstDelivered(w, c, n, data, |entries|);
      DataInStep(w, c, n, data, e);
      SameWorld(w, n);
    }
  }

  lemma TimeStartBytes(ticks: Word64)
    ensures ReadWord64(TimeStart(ticks), 0) == 0 && ReadWord64(TimeStart(ticks), 8) == ticks
  {
    var b := TimeStart(ticks);
    Pow256Values();
    LERoundTrip(0, 8);
    LERoundTrip(ticks, 8);
    assert b[0..8] == ToLE(0, 8) && b[8..16] == ToLE(ticks, 8);
  }

  lemma SetTimeStartStep(w: World, c: State, n: nat, ticks: Word64)
    requires InStep(w, c) && Applicable(w, SetTimeStart(n, ticks))
    ensures var op := SetTimeStart(n, ticks);
            var r := Tables.ProcessAll(c, Outgoing(w, op));
            r.accepted && r.events == Expected(w, op) && InStep(Apply(w, op), r.state)
  {
    hide Tables.ProcessAll, Tables.Exact, Read, ReadWord64;
    var data := TimeStart(ticks);
    OneData(c, n, data);
    Tables.DataKeepsExact(c, w.subscribed, n, data);
    DataFrame(c, n, data);
    TimeStartBytes(ticks);
    var w' := Apply(w, SetTimeStart(n, ticks));
    if n in w.subscribed {
      ValueSignals(w, c, n);
    }
    InStepUpdate(w, c, n, w'.signals[n], ProcessData(c, n, data).state);
    assert w.signals[n := w'.signals[n]] == w'.signals;
  }

  /** Every applicable and permitted operation keeps the two sides in step: whatever it writes is
      accepted, and the callbacks are the expected ones. */
  lemma OperationStep(w: World, c: State, op: Op)
    requires InStep(w, c) && Applicable(w, op) && Permitted(w, op) && Proper(op)
    ensures var r := Tables.ProcessAll(c, Outgoing(w, op));
            r.accepted && r.events == Expected(w, op) && InStep(Apply(w, op), r.state)
  {
    hide InStep, Apply, Outgoing, Expected, Tables.ProcessAll;
    match op {
      case SubscribeSignal(n) => SubscribeStep(w, c, n);
      case UnsubscribeSignal(n) => UnsubscribeStep(w, c, n);
      case WriteDescription(n) => DescribeStep(w, c, n);
      case AddData(n, samples) => AddDataStep(w, c, n, samples);
      case AddConstants(n, entries) => AddConstantsStep(w, c, n, entries);
      case SetTimeStart(n, ticks) => SetTimeStartStep(w, c, n, ticks);
      case SetOutputRate(_, _) | SetAttributes(_, _) => SilentStep(w, c, op);
    }
  }

  /** Rate and attributes are not sent before the next description. */
  lemma SilentStep(w: World, c: State, op: Op)
    requires InStep(w, c) && Applicable(w, op) && Proper(op) && (op.SetOutputRate? || op.SetAttributes?)
    ensures var r := Tables.ProcessAll(c, Outgoing(w, op));
            r.accepted && r.events == Expected(w, op) && InStep(Apply(w, op), r.state)
  {
    hide Tables.Exact, Tables.ProcessAll;
    var n, e := op.n, w.signals[op.n];
    NothingProcessed(c);
    InStepUpdate(w, c, n, if op.SetOutputRate? then e.(delta := op.ticks) else e.(own := op.attributes), c);
  }

  /** What an operation writes is accepted if and only if the discipline permits it, in every state
      in which the consumer has the signals that are subscribed, whatever it knows about them. */
  lemma AcceptedIffPermitted(w: World, c: State, op: Op)
    requires c.signals.Keys == w.subscribed <= w.signals.Keys && Applicable(w, op)
    ensures var r := Tables.ProcessAll(c, Outgoing(w, op));
            && (r.accepted <==> Permitted(w, op))
            && (r.accepted ==> r.state.signals.Keys == Apply(w, op).subscribed)
  {
    hide Describe, DescriptionOf, Tables.ProcessAll, ProcessData, Attach, Detach;
    var n, e := op.n, w.signals[op.n];
    match op {
      case SubscribeSignal(_) =>
        TwoMetas(c, n, Subscribe(Some(Text(e.id))), DescriptionOf(e));
        NewSignal(e.id);
        IsDescription(e);
        DescriptionAccepted(e, INITIAL.(signalId := e.id));
      case UnsubscribeSignal(_) => OneMeta(c, n, Unsubscribe);
      case WriteDescription(_) =>
        OneMeta(c, n, DescriptionOf(e));
        IsDescription(e);
        if n in c.signals {
          DescriptionAccepted(e, c.signals[n]);
        }
      case AddData(_, samples) =>
        OneData(c, n, Flatten(samples));
        DataFrame(c, n, Flatten(samples));
      case AddConstants(_, entries) =>
        OneData(c, n, Flatten(entries));
        DataFrame(c, n, Flatten(entries));
      case SetTimeStart(_, ticks) =>
        OneData(c, n, TimeStart(ticks));
        DataFrame(c, n, TimeStart(ticks));
      case SetOutputRate(_, _) | SetAttributes(_, _) => NothingProcessed(c);
    }
  }

  lemma NewSignal(id: string)
    ensures Describe(INITIAL, Subscribe(Some(Text(id)))) == Outcome(INITIAL.(signalId := id), true)
  {
  }

  lemma IsDescription(e: Producer.Signal)
    ensures DescriptionOf(e).Signal?
  {
  }

  lemma NothingProcessed(c: State)
    ensures Tables.ProcessAll(c, []) == Result(c, [], true)
  {
  }

  /** A constant signal with a start value that is not a number cannot be described: the consumer
      rejects its description in every state. */
  lemma OddStartRejected(e: Producer.Signal, s: SignalState)
    requires e.Const? && e.start == Some(NotNumeric)
    ensures !Describe(s, DescriptionOf(e)).accepted
  {
    DescriptionAccepted(e, s);
  }

  /** The consumer's value index is the producer's if and only if no sample was refused since the
      last description. */
  lemma IndexAgreesIff(w: World, c: State, n: nat)
    requires InStep(w, c) && n in w.subscribed && w.signals[n].Sync?
    ensures c.signals[n].valueIndex == w.signals[n].index <==> w.signals[n].dropped == 0
  {
    hide Tables.Exact;
    assert Matches(w.signals[n], c.signals[n]);
    LagZeroIff(c.signals[n].valueIndex, w.signals[n].dropped, w.signals[n].index);
  }

  lemma LagZeroIff(seen: Word64, dropped: Word64, index: Word64)
    requires Wrap(seen + dropped) == index
    ensures seen == index <==> dropped == 0
  {
  }
}
