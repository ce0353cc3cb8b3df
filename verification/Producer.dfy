/** The producing side as a whole: a set of synchronous, constant and linear time signals, the
    operations on them, the messages they write, and what a consumer should make of it all. */
module Producer {
  import opened Words
  import opened Values
  import opened Messages
  import Layout
  import Tables

  datatype Signal =
    | Sync(id: string, table: string, base: Layout.BaseType, own: Attributes, index: Word64,
           dropped: Word64, seen: Attributes)
    | Const(id: string, table: string, base: Layout.BaseType, own: Attributes, start: Option<NumberNode>,
            seen: Attributes)
    | Clock(id: string, table: string, ticksPerSecond: Word64, delta: Word64, timeStart: Word64,
            announced: Word64, anchor: Word64)

  /** The producer's signals by number, and which of them the consumer has subscribed. Four
      fields record history rather than producer state: the samples of a synchronous signal that
      the consumer refused since the last description (`dropped`), the attributes that the consumer
      has been told (`seen`), the delta last described (`announced`) and the time start last taken
      over by the consumer (`anchor`). */
  datatype World = World(signals: map<nat, Signal>, subscribed: set<nat>)

  const SECONDS := Unit(UNIT_ID_SECONDS, "s", QUANTITY_TIME)

  /** The setting the claims are made for: signals have distinct numbers that fit the header, a
      value signal does not announce the quantity "time", a table has at most one time signal. */
  ghost predicate WellFormed(w: World) {
    && w.subscribed <= w.signals.Keys
    && (forall n :: n in w.signals ==> 1 <= n < 0x10_0000)
    && (forall n :: n in w.signals && !w.signals[n].Clock? ==> SilentOnTime(w.signals[n].own.unit))
    && (forall n, k | n in w.signals && k in w.signals && w.signals[n].Clock? && w.signals[k].Clock? ::
          w.signals[n].table == w.signals[k].table ==> n == k)
  }

  predicate SilentOnTime(u: Unit) {
    u.id == UNIT_ID_NONE || u.quantity != QUANTITY_TIME
  }

  // ------------------------------------------------------------------ descriptions

  const NO_RESOLUTION := ResolutionPatch(None, None)

  function DefinitionOf(e: Signal): Definition {
    match e
    case Sync(_, _, base, own, _, _, _) =>
      Definition(None, None, Some(ExplicitRule), Layout.Node(Layout.NoDimensions, Layout.Base(base)),
                 own.unit.Compose(), NO_RESOLUTION, own.range.Compose(), own.scaling.Compose())
    case Const(_, _, base, own, start, _) =>
      Definition(None, start, Some(ConstantRule), Layout.Node(Layout.NoDimensions, Layout.Base(base)),
                 own.unit.Compose(), NO_RESOLUTION, own.range.Compose(), own.scaling.Compose())
    case Clock(_, _, ticksPerSecond, delta, _, _, _) =>
      Definition(Some(Numeric(delta)), None, Some(LinearRule),
                 Layout.Node(Layout.NoDimensions, Layout.Base(Layout.U64)),
                 SECONDS.Compose(), Resolution(1, ticksPerSecond).Compose(), NO_RANGE.Compose(), ONE_TO_ONE.Compose())
  }

  /** The description a signal writes; a synchronous signal includes its value index. */
  function DescriptionOf(e: Signal): Message {
    Message.Signal(Some(Text(e.table)), if e.Sync? then Some(e.index) else None, Some(DefinitionOf(e)))
  }

  // ------------------------------------------------------------------ operations

  datatype Op =
    | SubscribeSignal(n: nat)
    | UnsubscribeSignal(n: nat)
    | WriteDescription(n: nat)
    | AddData(n: nat, samples: seq<seq<Byte>>)
    | AddConstants(n: nat, entries: seq<seq<Byte>>)
    | SetTimeStart(n: nat, ticks: Word64)
    | SetOutputRate(n: nat, ticks: Word64)
    | SetAttributes(n: nat, attributes: Attributes)

  function Flatten(samples: seq<seq<Byte>>): seq<Byte> {
    if samples == [] then [] else Flatten(samples[..|samples| - 1]) + samples[|samples| - 1]
  }

  /** A time start as it is written: index 0, then the ticks. */
  function TimeStart(ticks: Word64): seq<Byte> {
    ToLE(0, 8) + ToLE(ticks, 8)
  }

  /** What signal e writes for an operation, as meta messages and data. */
  function OutgoingOf(e: Signal, op: Op): seq<Tables.Input> {
    match op
    case SubscribeSignal(n) => [Tables.Meta(n, Subscribe(Some(Text(e.id)))), Tables.Meta(n, DescriptionOf(e))]
    case UnsubscribeSignal(n) => [Tables.Meta(n, Unsubscribe)]
    case WriteDescription(n) => [Tables.Meta(n, DescriptionOf(e))]
    case AddData(n, samples) => [Tables.Data(n, Flatten(samples))]
    case AddConstants(n, entries) => [Tables.Data(n, Flatten(entries))]
    case SetTimeStart(n, ticks) => [Tables.Data(n, TimeStart(ticks))]
    case SetOutputRate(_, _) | SetAttributes(_, _) => []
  }

  function Outgoing(w: World, op: Op): seq<Tables.Input>
    requires op.n in w.signals
  {
    OutgoingOf(w.signals[op.n], op)
  }

  predicate AllOfLength(s: seq<seq<Byte>>, k: nat) {
    s == [] || (|s[|s| - 1]| == k && AllOfLength(s[..|s| - 1], k))
  }

  /** The operation exists on that signal, and data comes in whole values. */
  predicate Applicable(w: World, op: Op) {
    && op.n in w.signals
    && var e := w.signals[op.n];
       match op
       case AddData(_, samples) => e.Sync? && AllOfLength(samples, Layout.Width(e.base))
       case AddConstants(_, entries) => e.Const? && AllOfLength(entries, 8 + Layout.Width(e.base))
       case SetTimeStart(_, _) | SetOutputRate(_, _) => e.Clock?
       case SetAttributes(_, _) => !e.Clock?
       case _ => true
  }

  /** What a signal must be like for its description to be accepted: the delta of a linear time
      signal is not zero, and the start value of a constant signal, which is any JSON value, is a
      number if there is one. */
  predicate Describable(e: Signal) {
    (e.Clock? ==> e.delta != 0) && (e.Const? ==> e.start != Some(NotNumeric))
  }

  /** The discipline of subscribing: only what is not subscribed, unsubscribing and describing only
      what is, and describing only what is describable. */
  predicate Permitted(w: World, op: Op)
    requires op.n in w.signals
  {
    var e := w.signals[op.n];
    match op
    case SubscribeSignal(n) => n !in w.subscribed && Describable(e)
    case UnsubscribeSignal(n) => n in w.subscribed
    case WriteDescription(n) => n in w.subscribed && Describable(e)
    case _ => true
  }

  /** A value signal is not given the quantity "time". */
  predicate Proper(op: Op) {
    op.SetAttributes? ==> SilentOnTime(op.attributes.unit)
  }

  // ------------------------------------------------------------------ effects

  ghost predicate IsClock(w: World, k: nat, table: string) {
    k in w.subscribed && k in w.signals && w.signals[k].Clock? && w.signals[k].table == table
  }

  ghost predicate IsValueSignal(w: World, k: nat, table: string) {
    k in w.subscribed && k in w.signals && !w.signals[k].Clock? && w.signals[k].table == table
  }

  /** The subscribed time signal of a table, 0 when there is none. */
  ghost function ClockIn(w: World, table: string): (k: nat)
    ensures k != 0 ==> IsClock(w, k, table)
    ensures k == 0 ==> forall j :: j != 0 ==> !IsClock(w, j, table)
  {
    if exists k: nat :: k != 0 && IsClock(w, k, table) then
      var k: nat :| k != 0 && IsClock(w, k, table); k
    else 0
  }

  /** The signal when the consumer knows nothing of it. */
  function Untold(e: Signal): Signal {
    if e.Clock? then e.(anchor := 0) else e.(seen := NO_ATTRIBUTES)
  }

  /** The signal after it was described to the consumer. */
  function AfterDescription(e: Signal): Signal {
    match e
    case Sync(_, _, _, own, _, _, seen) => e.(dropped := 0, seen := seen.Told(own))
    case Const(_, _, _, own, _, seen) => e.(seen := seen.Told(own))
    case Clock(_, _, _, delta, _, _, _) => e.(announced := delta)
  }

  ghost function Apply(w: World, op: Op): World
    requires Applicable(w, op)
  {
    var e := w.signals[op.n];
    match op
    case SubscribeSignal(n) =>
      World(w.signals[n := AfterDescription(Untold(e))], w.subscribed + {n})
    case UnsubscribeSignal(n) => w.(subscribed := w.subscribed - {n})
    case WriteDescription(n) => w.(signals := w.signals[n := AfterDescription(e)])
    case AddData(n, samples) =>
      var lost := if n in w.subscribed && ClockIn(w, e.table) == 0 then |samples| else 0;
      w.(signals := w.signals[n := e.(index := Wrap(e.index + |samples|), dropped := Wrap(e.dropped + lost))])
    case AddConstants(_, _) => w
    case SetTimeStart(n, ticks) =>
      var taken := n in w.subscribed && exists k :: IsValueSignal(w, k, e.table);
      w.(signals := w.signals[n := e.(timeStart := ticks, anchor := if taken then ticks else e.anchor)])
    case SetOutputRate(n, ticks) => w.(signals := w.signals[n := e.(delta := ticks)])
    case SetAttributes(n, attributes) => w.(signals := w.signals[n := e.(own := attributes)])
  }

  /** Time of the sample with the given index in the table of a time signal: the time start has
      index 0, and the delta is the one last announced. */
  function TimeOf(clock: Signal, index: int): Word64
    requires clock.Clock?
  {
    Wrap(clock.anchor + index * clock.announced)
  }

  /** The callbacks the consumer should see. */
  ghost function Expected(w: World, op: Op): seq<Event>
    requires Applicable(w, op)
  {
    var e := w.signals[op.n];
    match op
    case SubscribeSignal(n) => [MetaEvent(n, Subscribe(Some(Text(e.id)))), MetaEvent(n, DescriptionOf(e))]
    case UnsubscribeSignal(n) => [MetaEvent(n, Unsubscribe)]
    case WriteDescription(n) => [MetaEvent(n, DescriptionOf(e))]
    case AddData(n, samples) =>
      if n !in w.subscribed || ClockIn(w, e.table) == 0 then [] else
        var clock := w.signals[ClockIn(w, e.table)];
        var t := TimeOf(clock, e.index - e.dropped);
        [Raw(n, t, Flatten(samples)), Values(n, t, Flatten(samples), |samples|, clock.announced)]
    case AddConstants(n, entries) =>
      if n !in w.subscribed || ClockIn(w, e.table) == 0 then [] else
        var clock := w.signals[ClockIn(w, e.table)];
        [Raw(n, clock.anchor, Flatten(entries)),
         Values(n, clock.anchor, Flatten(entries), |entries|, clock.announced)]
    case SetTimeStart(_, _) | SetOutputRate(_, _) | SetAttributes(_, _) => []
  }

  lemma {:induction false} FlattenLength(s: seq<seq<Byte>>, k: nat)
    requires AllOfLength(s, k)
    ensures |Flatten(s)| == |s| * k
  {
    if s != [] {
      FlattenLength(s[..|s| - 1], k);
      assert (|s| - 1) * k + k == |s| * k;
    }
  }

  lemma {:induction false} FlattenAt(s: seq<seq<Byte>>, k: nat, i: nat)
    requires AllOfLength(s, k) && i < |s|
    ensures 0 <= i * k <= i * k + k <= |Flatten(s)| && Flatten(s)[i * k..i * k + k] == s[i]
  {
    var front := s[..|s| - 1];
    FlattenLength(s, k);
    FlattenLength(front, k);
    if i < |front| {
      FlattenAt(front, k, i);
      assert Flatten(s)[i * k..i * k + k] == Flatten(front)[i * k..i * k + k];
    } else {
      assert |front| * k == i * k;
    }
  }
}
