/** A subscribed signal on the consumer side: its state, how a description changes it and how
    measured data is turned into callbacks. */
module Signals {
  import opened Words
  import opened Values
  import opened Messages
  import Layout

  datatype RuleType = RuleUnknown | RuleExplicit | RuleConstant | RuleLinear

  datatype SampleType =
    | SampleUnknown
    | SampleOf(base: Layout.BaseType)
    | BitField32
    | BitField64
    | SampleArray
    | SampleStruct

  datatype SignalState = SignalState(
    signalId: string,
    tableId: string,
    isTime: bool,
    valueType: SampleType,
    valueSize: Word64,
    rule: RuleType,
    time: Word64,
    delta: Word64,
    valueIndex: Word64,
    resolution: Resolution,
    timeBaseFrequency: Word64,
    unit: Unit,
    range: Range,
    scaling: PostScaling,
    constantStart: Option<NumberNode>)

  const INITIAL := SignalState("", "", false, SampleUnknown, 4, RuleExplicit, 0, 0, 0,
                               UNIT_RESOLUTION, 0, NO_UNIT, NO_RANGE, ONE_TO_ONE, None)

  /** State after a message was processed, and whether it was accepted. A rejected message may
      have changed the state before it was rejected. */
  datatype Outcome = Outcome(state: SignalState, accepted: bool)

  // ------------------------------------------------------------------ descriptions

  function IdText(id: Option<IdNode>, current: string): string {
    if id.Some? && !id.value.NotAnId? then id.value.text else current
  }

  function NewDelta(s: SignalState, d: Definition): Word64 {
    if d.linearDelta.Some? && d.linearDelta.value.Numeric? then d.linearDelta.value.value else s.delta
  }

  /** The rule after a definition; None when the rule is refused. */
  function NewRule(s: SignalState, d: Definition, delta: Word64): Option<RuleType> {
    match d.rule
    case None => Some(s.rule)
    case Some(LinearRule) => if delta == 0 then None else Some(RuleLinear)
    case Some(ExplicitRule) => Some(RuleExplicit)
    case Some(ConstantRule) => Some(RuleConstant)
    case Some(UnknownRule) => None
  }

  /** The sample type after a definition; None when the data type is refused. */
  function NewSampleType(s: SignalState, n: Layout.Node): Option<SampleType> {
    match n.kind
    case Missing => Some(s.valueType)
    case Base(b) => Some(SampleOf(b))
    case BitField(sub) =>
      if sub.kind == Layout.Base(Layout.U32) then Some(BitField32)
      else if sub.kind == Layout.Base(Layout.U64) then Some(BitField64)
      else None
    case Array(_, _) => Some(SampleArray)
    case Struct(_) => Some(SampleStruct)
    case DynamicArray | Unknown => None
  }

  predicate InSeconds(u: Unit) {
    u.id == UNIT_ID_SECONDS || (u.id == UNIT_ID_NONE && u.displayName == "s")
  }

  /** The last part of a definition: unit and time role, resolution, range and scaling. */
  function DefineUnit(s: SignalState, d: Definition): Outcome
  {
    var unit := s.unit.Parse(d.unit);
    var resolution := s.resolution.Parse(d.resolution);
    var s1 := s.(unit := unit, isTime := s.isTime || unit.quantity == QUANTITY_TIME, resolution := resolution);
    if s.resolution.ParseResult(d.resolution) == 1 && !InSeconds(unit) then Outcome(s1, false) else
      Outcome(s1.(timeBaseFrequency :=
                    if s.resolution.ParseResult(d.resolution) == 1
                    then Wrap(Quotient(resolution.denominator, resolution.numerator)) else s.timeBaseFrequency,
                  range := s.range.Parse(d.range),
                  scaling := s.scaling.Parse(d.scaling)),
              true)
  }

  /** The middle part: value size and sample type. */
  function DefineType(s: SignalState, d: Definition): Outcome
  {
    var size := Layout.ValueSize(d.layout);
    var s1 := s.(valueSize := if size != 0 then size else s.valueSize);
    var sampleType := NewSampleType(s, d.layout);
    if sampleType.None? then Outcome(s1, false) else DefineUnit(s1.(valueType := sampleType.value), d)
  }

  /** A definition, beginning with the linear delta, the start value of a constant and the rule. */
  function Define(s: SignalState, d: Definition): Outcome
  {
    if d.linearDelta == Some(NotNumeric) then Outcome(s, false) else
      var s1 := s.(delta := NewDelta(s, d),
                   constantStart := if d.constantStart.Some? then d.constantStart else s.constantStart);
      var rule := NewRule(s, d, s1.delta);
      if d.constantStart == Some(NotNumeric) || rule.None? then Outcome(s1, false) else
        DefineType(s1.(rule := rule.value), d)
  }

  function Describe(s: SignalState, m: Message): Outcome
  {
    match m
    case Subscribe(id) =>
      Outcome(s.(signalId := IdText(id, s.signalId)), id.Some? && !id.value.NotAnId?)
    case Signal(tableId, valueIndex, definition) =>
      if tableId == Some(NotAnId) then Outcome(s, false) else
        var s1 := s.(tableId := IdText(tableId, s.tableId), valueIndex := valueIndex.GetOr(s.valueIndex));
        if definition.None? then Outcome(s1, true) else Define(s1, definition.value)
    case _ => Outcome(s, true)
  }

  // ------------------------------------------------------------------ measured data

  datatype Reading = Reading(state: SignalState, events: seq<Event>, refused: bool)

  /** Time stamp of the value with the given index, from the anchor of a linear time signal. */
  function TimeStamp(clock: SignalState, index: Word64): Word64 {
    Wrap(clock.time + Wrap(Wrap(index - clock.valueIndex) * clock.delta))
  }

  /** Bytes per value of a signal with constant rule: a value index precedes each value. */
  function IndexedSize(s: SignalState): Word64 {
    Wrap(8 + s.valueSize)
  }

  function Read(s: SignalState, number: nat, data: seq<Byte>, clock: Option<SignalState>): Reading {
    var clockRule := if clock.Some? then clock.value.rule else RuleExplicit;
    match clockRule
    case RuleLinear =>
      var c := clock.value;
      var s1 := s.(delta := c.delta);
      if s.rule == RuleExplicit then
        var t := TimeStamp(c, s.valueIndex);
        var count := Quotient(|data|, s.valueSize);
        Reading(s1.(valueIndex := Wrap(s.valueIndex + count)),
                [Raw(number, t, data), Values(number, t, data, count, c.delta)], false)
      else if s.rule == RuleConstant then
        Reading(s1, [Raw(number, c.time, data),
                     Values(number, c.time, data, Quotient(|data|, IndexedSize(s)), c.delta)], false)
      else
        Reading(s1, [], false)
    case RuleExplicit =>
      if !EvenMultiple(|data|, s.valueSize) then Reading(s, [], false) else
        var t := if clock.Some? then clock.value.time else 0;
        Reading(s, [Raw(number, t, data), Values(number, t, data, Quotient(|data|, s.valueSize), s.delta)], false)
    case RuleConstant | RuleUnknown =>
      Reading(s, [], true)
  }

  /** With an explicit time signal, or none, a packet is delivered exactly when it holds whole
      values, with the time received last, and the signal does not change. */
  lemma ExplicitDomain(s: SignalState, number: nat, data: seq<Byte>, clock: Option<SignalState>)
    requires s.valueSize >= 1 && (clock.Some? ==> clock.value.rule == RuleExplicit)
    ensures var r := Read(s, number, data, clock);
            && r.state == s && !r.refused
            && (r.events != [] <==> |data| % s.valueSize == 0)
            && (r.events != [] ==>
                 var t := if clock.Some? then clock.value.time else 0;
                 && r.events == [Raw(number, t, data), Values(number, t, data, |data| / s.valueSize, s.delta)]
                 && |data| / s.valueSize * s.valueSize == |data|)
  {
    QuotientBounds(|data|, s.valueSize);
    QuotientIsDivision(|data|, s.valueSize);
  }

  // ------------------------------------------------------------------ safety

  /** What every division in the program relies on. */
  predicate Safe(s: SignalState) {
    && s.valueSize >= 1
    && s.resolution.numerator >= 1
    && s.resolution.denominator >= 1
    && s.rule != RuleUnknown
  }

  datatype Input =
    | Told(message: Message)
    | Fed(number: nat, data: seq<Byte>, clock: Option<SignalState>)
    | Anchored(time: Word64, index: Word64)

  /** One call on a subscribed signal; a rejection does not end the sequence. */
  function After(s: SignalState, i: Input): SignalState {
    match i
    case Told(m) => Describe(s, m).state
    case Fed(number, data, clock) => Read(s, number, data, clock).state
    case Anchored(t, index) => s.(time := t, valueIndex := index)
  }

  lemma DefineSafe(s: SignalState, d: Definition)
    requires Safe(s)
    ensures Safe(Define(s, d).state)
    ensures s.isTime ==> Define(s, d).state.isTime
    ensures Define(s, d).state.tableId == s.tableId
  {
  }

  lemma DescribeSafe(s: SignalState, m: Message)
    requires Safe(s)
    ensures Safe(Describe(s, m).state)
    ensures s.isTime ==> Describe(s, m).state.isTime
  {
    if m.Signal? && m.definition.Some? {
      DefineSafe(s.(tableId := IdText(m.tableId, s.tableId), valueIndex := m.valueIndex.GetOr(s.valueIndex)),
                 m.definition.value);
    }
  }

  /** Data changes nothing but the value index and the linear delta. */
  lemma ReadFrame(s: SignalState, number: nat, data: seq<Byte>, clock: Option<SignalState>)
    ensures var s' := Read(s, number, data, clock).state; s' == s.(valueIndex := s'.valueIndex, delta := s'.delta)
    ensures forall e :: e in Read(s, number, data, clock).events ==> (e.Raw? || e.Values?) && e.number == number
  {
  }

  lemma SafeStep(s: SignalState, i: Input)
    requires Safe(s)
    ensures Safe(After(s, i))
    ensures s.isTime ==> After(s, i).isTime
  {
    match i {
      case Told(m) => DescribeSafe(s, m);
      case Fed(number, data, clock) => ReadFrame(s, number, data, clock);
      case Anchored(_, _) =>
    }
  }

  /** Every prefix of every call sequence, whether or not descriptions are rejected on the way,
      leaves a safe state, and a signal that became a time signal stays one. */
  ghost predicate SafeThroughout(s: SignalState, inputs: seq<Input>)
    decreases |inputs|
  {
    Safe(s) && (inputs != [] ==>
      (s.isTime ==> After(s, inputs[0]).isTime) && SafeThroughout(After(s, inputs[0]), inputs[1..]))
  }

  lemma {:induction false} ReachableSafe(s: SignalState, inputs: seq<Input>)
    requires Safe(s)
    ensures SafeThroughout(s, inputs)
    decreases |inputs|
  {
    if inputs != [] {
      SafeStep(s, inputs[0]);
      ReachableSafe(After(s, inputs[0]), inputs[1..]);
    }
  }

  /** A new signal is safe, so this holds from its creation on. */
  lemma ReachableFromStart(id: string, inputs: seq<Input>)
    ensures SafeThroughout(INITIAL.(signalId := id), inputs)
  {
    ReachableSafe(INITIAL.(signalId := id), inputs);
  }

  // ------------------------------------------------------------------ the value index

  /** The value index that a call gives, if any: a description may, whether or not the rest of it is
      accepted, and so does a time packet. */
  function IndexGiven(i: Input): Option<Word64> {
    match i
    case Told(m) => if m.Signal? && m.tableId != Some(NotAnId) then m.valueIndex else None
    case Fed(_, _, _) => None
    case Anchored(_, index) => Some(index)
  }

  /** The values that a packet is counted for: explicit values under a linear time signal. */
  function ValuesCounted(s: SignalState, i: Input): nat {
    if i.Fed? && i.clock.Some? && i.clock.value.rule == RuleLinear && s.rule == RuleExplicit && s.valueSize > 0
    then |i.data| / s.valueSize else 0
  }

  function AfterAll(s: SignalState, inputs: seq<Input>): SignalState
    decreases |inputs|
  {
    if inputs == [] then s else AfterAll(After(s, inputs[0]), inputs[1..])
  }

  /** The values counted since the last index was given, when `count` were before. */
  function CountedSince(count: nat, s: SignalState, inputs: seq<Input>): nat
    decreases |inputs|
  {
    if inputs == [] then count else
      CountedSince(if IndexGiven(inputs[0]).Some? then 0 else count + ValuesCounted(s, inputs[0]),
                   After(s, inputs[0]), inputs[1..])
  }

  lemma DefineKeepsIndex(s: SignalState, d: Definition)
    ensures var s' := Define(s, d).state;
            && s'.valueIndex == s.valueIndex && s'.time == s.time
            && s'.tableId == s.tableId && s'.signalId == s.signalId
  {
  }

  lemma IndexStep(s: SignalState, i: Input)
    requires Safe(s)
    ensures After(s, i).valueIndex
         == if IndexGiven(i).Some? then IndexGiven(i).value else Wrap(s.valueIndex + ValuesCounted(s, i))
  {
    hide Define, Quotient;
    match i {
      case Told(m) =>
        if m.Signal? && m.definition.Some? {
          DefineKeepsIndex(s.(tableId := IdText(m.tableId, s.tableId), valueIndex := m.valueIndex.GetOr(s.valueIndex)),
                           m.definition.value);
        }
      case Fed(_, data, _) => QuotientIsDivision(|data|, s.valueSize);
      case Anchored(_, _) =>
    }
  }

  /** The last index given, `index` when there is none. */
  function LastIndex(index: Word64, inputs: seq<Input>): Word64
    decreases |inputs|
  {
    if inputs == [] then index else LastIndex(IndexGiven(inputs[0]).GetOr(index), inputs[1..])
  }

  /** After any calls, accepted or rejected, the value index is the last one given plus the values
      counted since then, modulo 2^64; a description without an index keeps it. */
  lemma {:induction false} IndexOfRun(s: SignalState, base: Word64, count: nat, inputs: seq<Input>)
    requires Safe(s) && s.valueIndex == Wrap(base + count)
    ensures AfterAll(s, inputs).valueIndex == Wrap(LastIndex(base, inputs) + CountedSince(count, s, inputs))
    decreases |inputs|
  {
    hide After, IndexGiven, ValuesCounted, Safe, Wrap;
    if inputs != [] {
      var i, rest := inputs[0], inputs[1..];
      IndexStep(s, i);
      SafeStep(s, i);
      if IndexGiven(i).Some? {
        WordItself(IndexGiven(i).value);
        IndexOfRun(After(s, i), IndexGiven(i).value, 0, rest);
      } else {
        WrapAdd(base + count, ValuesCounted(s, i));
        IndexOfRun(After(s, i), base, count + ValuesCounted(s, i), rest);
      }
    }
  }

  lemma WordItself(x: Word64)
    ensures Wrap(x + 0) == x
  {
  }

  /** Safety covers every divisor but one: the size of an indexed value wraps to zero for exactly
      one value size. */
  lemma IndexedSizeZero(s: SignalState)
    ensures IndexedSize(s) == 0 <==> s.valueSize == 0x1_0000_0000_0000_0000 - 8
  {
  }

  /** That value size can be described: an array of 2^61 - 1 64-bit elements. */
  lemma IndexedSizeZeroReachable(k: Word64)
    requires 8 * k == 0x1_0000_0000_0000_0000 - 8
    ensures var node := Layout.Node(Layout.NoDimensions,
                          Layout.Array(k, Layout.Node(Layout.NoDimensions, Layout.Base(Layout.U64))));
            var o := Define(INITIAL, NO_DEFINITION.(rule := Some(ConstantRule), layout := node));
            o.accepted && o.state.rule == RuleConstant && IndexedSize(o.state) == 0
  {
    var node := Layout.Node(Layout.NoDimensions,
                  Layout.Array(k, Layout.Node(Layout.NoDimensions, Layout.Base(Layout.U64))));
    Layout.WordArraySize(k);
    ConstantArrayAccepted(node);
  }

  lemma ConstantArrayAccepted(node: Layout.Node)
    requires node.kind.Array? && Layout.ValueSize(node) != 0
    ensures var o := Define(INITIAL, NO_DEFINITION.(rule := Some(ConstantRule), layout := node));
            o.accepted && o.state.rule == RuleConstant && o.state.valueSize == Layout.ValueSize(node)
  {
  }

  // ------------------------------------------------------------------ acceptance and last writer wins

  /** When a definition is accepted, as a condition on the signal and the definition alone. */
  predicate Acceptable(s: SignalState, d: Definition) {
    && d.linearDelta != Some(NotNumeric)
    && d.constantStart != Some(NotNumeric)
    && d.rule != Some(UnknownRule)
    && (d.rule == Some(LinearRule) ==> NewDelta(s, d) != 0)
    && (d.layout.kind.BitField? ==> d.layout.kind.bits.kind in {Layout.Base(Layout.U32), Layout.Base(Layout.U64)})
    && !d.layout.kind.DynamicArray? && !d.layout.kind.Unknown?
    && (d.resolution.HasZero()
        || (d.resolution.numerator.None? && d.resolution.denominator.None?)
        || InSeconds(s.unit.Parse(d.unit)))
  }

  lemma DefineAcceptedIff(s: SignalState, d: Definition)
    ensures Define(s, d).accepted <==> Acceptable(s, d)
  {
  }

  /** When a message to a signal is accepted: an acknowledgement with an id, a description whose table
      is an id or not mentioned and whose definition, if there is one, is acceptable, and any other. */
  lemma DescribeAcceptedIff(s: SignalState, m: Message)
    ensures Describe(s, m).accepted <==>
              match m
              case Subscribe(id) => id.Some? && (id.value.Text? || id.value.Number?)
              case Signal(tableId, _, definition) =>
                tableId != Some(NotAnId) && (definition.Some? ==> Acceptable(s, definition.value))
              case _ => true
  {
    hide Define;
    if m.Signal? && m.definition.Some? {
      var s1 := s.(tableId := IdText(m.tableId, s.tableId), valueIndex := m.valueIndex.GetOr(s.valueIndex));
      DefineAcceptedIff(s1, m.definition.value);
    }
  }

  /** The fields of a signal after an accepted definition. */
  lemma DefineFields(s: SignalState, d: Definition)
    requires Define(s, d).accepted
    ensures var s' := Define(s, d).state;
            && s'.tableId == s.tableId && s'.valueIndex == s.valueIndex && s'.time == s.time
            && s'.signalId == s.signalId
            && s'.constantStart == (if d.constantStart.Some? then d.constantStart else s.constantStart)
            && s'.unit == s.unit.Parse(d.unit)
            && s'.range == s.range.Parse(d.range) && s'.scaling == s.scaling.Parse(d.scaling)
            && s'.isTime == (s.isTime || s'.unit.quantity == QUANTITY_TIME)
            && s'.delta == NewDelta(s, d)
            && Some(s'.rule) == NewRule(s, d, s'.delta)
            && (Layout.ValueSize(d.layout) != 0 ==> s'.valueSize == Layout.ValueSize(d.layout))
            && Some(s'.valueType) == NewSampleType(s, d.layout)
            && s'.resolution == s.resolution.Parse(d.resolution)
            && s'.timeBaseFrequency
               == (if s.resolution.ParseResult(d.resolution) != 1 then s.timeBaseFrequency
                   else Wrap(Quotient(s'.resolution.denominator, s'.resolution.numerator)))
  {
  }

  /** A resolution is accepted for seconds only: unit number 5457219, or no unit number and "s". The
      frequency is then the denominator divided by the numerator. */
  lemma ResolutionNeedsSeconds(s: SignalState, numerator: Word64, denominator: Word64, unit: UnitPatch)
    requires numerator > 0 && denominator > 0
    ensures var d := NO_DEFINITION.(resolution := ResolutionPatch(Some(numerator), Some(denominator)), unit := unit);
            var o := Define(s, d);
            var u := s.unit.Parse(unit);
            && (o.accepted <==> u.id == 5457219 || (u.id == -1 && u.displayName == "s"))
            && (o.accepted ==> o.state.timeBaseFrequency == denominator / numerator)
            && (o.accepted ==> o.state.resolution == Resolution(numerator, denominator))
  {
    hide Define, Quotient;
    var d := NO_DEFINITION.(resolution := ResolutionPatch(Some(numerator), Some(denominator)), unit := unit);
    DefineAcceptedIff(s, d);
    QuotientIsDivision(denominator, numerator);
    SmallQuotient(denominator, numerator);
    if Define(s, d).accepted {
      DefineFields(s, d);
    }
  }

  lemma SmallQuotient(a: Word64, b: Word64)
    requires b > 0
    ensures Wrap(a / b) == a / b
  {
    QuotientIsDivision(a, b);
    QuotientBounds(a, b);
    MulMonotone(1, b, Quotient(a, b));
  }

  /** What a new signal does with half a resolution: the other half is 1. */
  lemma HalfResolution(id: string, k: Word64)
    requires k > 0
    ensures var seconds := NO_DEFINITION.(unit := UnitPatch(Some(5457219), None, None));
            var o := Define(INITIAL.(signalId := id), seconds.(resolution := ResolutionPatch(None, Some(k))));
            var q := Define(INITIAL.(signalId := id), seconds.(resolution := ResolutionPatch(Some(k), None)));
            && o.accepted && o.state.timeBaseFrequency == k && o.state.resolution == Resolution(1, k)
            && q.accepted && q.state.timeBaseFrequency == 1 / k && q.state.resolution == Resolution(k, 1)
  {
    hide Define, Quotient;
    var seconds := NO_DEFINITION.(unit := UnitPatch(Some(5457219), None, None));
    var s := INITIAL.(signalId := id);
    var d := seconds.(resolution := ResolutionPatch(None, Some(k)));
    var e := seconds.(resolution := ResolutionPatch(Some(k), None));
    DefineAcceptedIff(s, d);
    DefineAcceptedIff(s, e);
    DefineFields(s, d);
    DefineFields(s, e);
    QuotientIsDivision(k, 1);
    QuotientIsDivision(1, k);
    SmallQuotient(k, 1);
    SmallQuotient(1, k);
  }

  /** The sample type after an accepted definition: a definition without data type keeps it, scalars
      have their base type, bit fields 32 or 64 bits, and arrays and structs are told apart. */
  lemma TypeReported(s: SignalState, d: Definition)
    requires Define(s, d).accepted
    ensures var t, kind := Define(s, d).state.valueType, d.layout.kind;
            && (kind.Missing? ==> t == s.valueType)
            && (!kind.Missing? ==>
                 && !t.SampleUnknown?
                 && (t.SampleOf? <==> kind.Base?) && (kind.Base? ==> t.base == kind.base)
                 && (t.SampleArray? <==> kind.Array?) && (t.SampleStruct? <==> kind.Struct?)
                 && (t.BitField32? <==> kind.BitField? && kind.bits.kind == Layout.Base(Layout.U32))
                 && (t.BitField64? <==> kind.BitField? && kind.bits.kind == Layout.Base(Layout.U64)))
  {
    hide Define;
    DefineFields(s, d);
  }

  /** A description makes a signal a time signal exactly by the quantity "time". */
  lemma TimeByQuantity(s: SignalState, quantity: string)
    ensures var o := Define(s, NO_DEFINITION.(unit := UnitPatch(None, None, Some(quantity))));
            o.accepted && (o.state.isTime <==> s.isTime || quantity == "time")
  {
    hide Define;
    var d := NO_DEFINITION.(unit := UnitPatch(None, None, Some(quantity)));
    DefineAcceptedIff(s, d);
    DefineFields(s, d);
  }

  /** What the program means to ensure for a linear rule. */
  predicate LinearValid(s: SignalState) {
    s.rule == RuleLinear ==> s.delta != 0
  }

  /** An accepted definition keeps a linear rule valid if and only if it does not set the delta to
      zero without mentioning the rule: the check for zero is made only when the rule is given. */
  lemma LinearValidIff(s: SignalState, d: Definition)
    requires LinearValid(s) && Define(s, d).accepted
    ensures LinearValid(Define(s, d).state)
       <==> !(s.rule == RuleLinear && d.rule.None? && d.linearDelta == Some(Numeric(0)))
  {
    DefineFields(s, d);
  }

  /** Such a definition is accepted: a delta of zero alone, after a valid linear rule. */
  lemma ZeroDeltaAccepted(s: SignalState)
    requires s.rule == RuleLinear && s.delta != 0
    ensures var d := NO_DEFINITION.(linearDelta := Some(Numeric(0)));
            var o := Define(s, d);
            o.accepted && o.state.rule == RuleLinear && o.state.delta == 0
  {
    var d := NO_DEFINITION.(linearDelta := Some(Numeric(0)));
    DefineAcceptedIff(s, d);
    DefineFields(s, d);
  }

  /** The definition part of a message, empty when the message has none. */
  function Patch(m: Message): Definition {
    if m.Signal? && m.definition.Some? then m.definition.value else NO_DEFINITION
  }

  function TableWrite(m: Message): Option<string> {
    if m.Signal? && m.tableId.Some? && !m.tableId.value.NotAnId? then Some(m.tableId.value.text) else None
  }

  function DeltaWrite(m: Message): Option<Word64> {
    var d := Patch(m).linearDelta;
    if d.Some? && d.value.Numeric? then Some(d.value.value) else None
  }

  function RuleWrite(m: Message): Option<RuleType> {
    match Patch(m).rule
    case Some(LinearRule) => Some(RuleLinear)
    case Some(ExplicitRule) => Some(RuleExplicit)
    case Some(ConstantRule) => Some(RuleConstant)
    case _ => None
  }

  function BoundWrite(v: Option<real>): Option<Bound> {
    if v.Some? then Some(Limit(v.value)) else None
  }

  /** What a description writes to each field: the unit, the range, the scaling, and the
      resolution unless one of its numbers is zero. */
  datatype Fields = Fields(
    table: Option<string>, index: Option<Word64>, delta: Option<Word64>, start: Option<NumberNode>,
    rule: Option<RuleType>, unitId: Option<int>, displayName: Option<string>, quantity: Option<string>,
    low: Option<Bound>, high: Option<Bound>, offset: Option<real>, scale: Option<real>,
    numerator: Option<Word64>, denominator: Option<Word64>)

  function WritesOf(m: Message): Fields {
    var d := Patch(m);
    Fields(TableWrite(m), if m.Signal? then m.valueIndex else None, DeltaWrite(m), d.constantStart, RuleWrite(m),
           d.unit.id, d.unit.displayName, d.unit.quantity,
           BoundWrite(d.range.low), BoundWrite(d.range.high), d.scaling.offset, d.scaling.scale,
           if d.resolution.HasZero() then None else d.resolution.numerator,
           if d.resolution.HasZero() then None else d.resolution.denominator)
  }

  function WritesOfAll(ms: seq<Message>): (fs: seq<Fields>)
    ensures |fs| == |ms| && forall i :: 0 <= i < |ms| ==> fs[i] == WritesOf(ms[i])
  {
    seq(|ms|, i requires 0 <= i < |ms| => WritesOf(ms[i]))
  }

  /** The fields of a signal that descriptions write independently of each other. */
  datatype Described = Described(
    table: string, index: Word64, delta: Word64, start: Option<NumberNode>, rule: RuleType,
    unit: Unit, range: Range, scaling: PostScaling, resolution: Resolution)

  function DescribedPart(s: SignalState): Described {
    Described(s.tableId, s.valueIndex, s.delta, s.constantStart, s.rule, s.unit, s.range, s.scaling, s.resolution)
  }

  function Overwrite(p: Described, f: Fields): Described {
    Described(f.table.GetOr(p.table), f.index.GetOr(p.index), f.delta.GetOr(p.delta),
              if f.start.Some? then f.start else p.start, f.rule.GetOr(p.rule),
              Unit(f.unitId.GetOr(p.unit.id), f.displayName.GetOr(p.unit.displayName),
                   f.quantity.GetOr(p.unit.quantity)),
              Range(f.low.GetOr(p.range.low), f.high.GetOr(p.range.high)),
              PostScaling(f.offset.GetOr(p.scaling.offset), f.scale.GetOr(p.scaling.scale)),
              Resolution(f.numerator.GetOr(p.resolution.numerator), f.denominator.GetOr(p.resolution.denominator)))
  }

  /** A value that is stored as it was given. */
  function Stored<T>(v: Option<T>): Option<Option<T>> {
    if v.Some? then Some(v) else None
  }

  /** Field by field, the last description that mentions a field decides it. */
  function LastWrites(p: Described, fs: seq<Fields>): Described {
    Described(LastWrite(p.table, Written(fs, (f: Fields) => f.table)),
              LastWrite(p.index, Written(fs, (f: Fields) => f.index)),
              LastWrite(p.delta, Written(fs, (f: Fields) => f.delta)),
              LastWrite(p.start, Written(fs, (f: Fields) => Stored(f.start))),
              LastWrite(p.rule, Written(fs, (f: Fields) => f.rule)),
              Unit(LastWrite(p.unit.id, Written(fs, (f: Fields) => f.unitId)),
                   LastWrite(p.unit.displayName, Written(fs, (f: Fields) => f.displayName)),
                   LastWrite(p.unit.quantity, Written(fs, (f: Fields) => f.quantity))),
              Range(LastWrite(p.range.low, Written(fs, (f: Fields) => f.low)),
                    LastWrite(p.range.high, Written(fs, (f: Fields) => f.high))),
              PostScaling(LastWrite(p.scaling.offset, Written(fs, (f: Fields) => f.offset)),
                          LastWrite(p.scaling.scale, Written(fs, (f: Fields) => f.scale))),
              Resolution(LastWrite(p.resolution.numerator, Written(fs, (f: Fields) => f.numerator)),
                         LastWrite(p.resolution.denominator, Written(fs, (f: Fields) => f.denominator))))
  }

  lemma LastWritesNone(p: Described)
    ensures LastWrites(p, []) == p
  {
  }

  lemma LastWritesFirst(p: Described, f: Fields, fs: seq<Fields>)
    ensures LastWrites(p, [f] + fs) == LastWrites(Overwrite(p, f), fs)
  {
    LastWriteFirst(p.table, f, fs, (f: Fields) => f.table);
    LastWriteFirst(p.index, f, fs, (f: Fields) => f.index);
    LastWriteFirst(p.delta, f, fs, (f: Fields) => f.delta);
    LastWriteFirst(p.start, f, fs, (f: Fields) => Stored(f.start));
    LastWriteFirst(p.rule, f, fs, (f: Fields) => f.rule);
    LastWriteFirst(p.unit.id, f, fs, (f: Fields) => f.unitId);
    LastWriteFirst(p.unit.displayName, f, fs, (f: Fields) => f.displayName);
    LastWriteFirst(p.unit.quantity, f, fs, (f: Fields) => f.quantity);
    LastWriteFirst(p.range.low, f, fs, (f: Fields) => f.low);
    LastWriteFirst(p.range.high, f, fs, (f: Fields) => f.high);
    LastWriteFirst(p.scaling.offset, f, fs, (f: Fields) => f.offset);
    LastWriteFirst(p.scaling.scale, f, fs, (f: Fields) => f.scale);
    LastWriteFirst(p.resolution.numerator, f, fs, (f: Fields) => f.numerator);
    LastWriteFirst(p.resolution.denominator, f, fs, (f: Fields) => f.denominator);
  }

  lemma DefineWrites(s: SignalState, d: Definition)
    requires Define(s, d).accepted
    ensures DescribedPart(Define(s, d).state)
         == Overwrite(DescribedPart(s), WritesOf(Signal(None, None, Some(d))))
  {
  }

  lemma DescribeWrites(s: SignalState, m: Message)
    requires m.Signal? && Describe(s, m).accepted
    ensures DescribedPart(Describe(s, m).state) == Overwrite(DescribedPart(s), WritesOf(m))
  {
    if m.definition.Some? {
      DefineWrites(s.(tableId := IdText(m.tableId, s.tableId), valueIndex := m.valueIndex.GetOr(s.valueIndex)),
                   m.definition.value);
    }
  }

  predicate AllAccepted(s: SignalState, ms: seq<Message>)
    decreases |ms|
  {
    ms == [] || (ms[0].Signal? && Describe(s, ms[0]).accepted && AllAccepted(Describe(s, ms[0]).state, ms[1..]))
  }

  function DescribeAll(s: SignalState, ms: seq<Message>): SignalState
    decreases |ms|
  {
    if ms == [] then s else DescribeAll(Describe(s, ms[0]).state, ms[1..])
  }

  /** Partial descriptions accumulate: after any run of accepted descriptions each field holds the
      last value written to it. */
  lemma {:induction false} DescriptionsFold(s: SignalState, ms: seq<Message>)
    requires AllAccepted(s, ms)
    ensures DescribedPart(DescribeAll(s, ms)) == LastWrites(DescribedPart(s), WritesOfAll(ms))
    decreases |ms|
  {
    hide LastWrites, Describe, Overwrite, WritesOf, DescribedPart;
    if ms == [] {
      LastWritesNone(DescribedPart(s));
    } else {
      var s' := Describe(s, ms[0]).state;
      DescribeWrites(s, ms[0]);
      DescriptionsFold(s', ms[1..]);
      LastWritesFirst(DescribedPart(s), WritesOf(ms[0]), WritesOfAll(ms[1..]));
      assert WritesOfAll(ms) == [WritesOf(ms[0])] + WritesOfAll(ms[1..]);
    }
  }
}
