/** Delivered values and their conversion: when the conversion of a delivered packet stays within the
    packet, and that the values of a signal in step arrive as they were written. */
module Conversion {
  import opened Words
  import opened Messages
  import opened Signals
  import opened ConstantRule
  import Container
  import Layout
  import Lockstep
  import Producer
  import Tables

  // ------------------------------------------------------------------ staying within the packet

  /** The bytes by which a packet is counted into values; None when no values are delivered. */
  function CountedSize(s: SignalState, clock: Option<SignalState>): Option<nat> {
    match (if clock.Some? then clock.value.rule else RuleExplicit)
    case RuleLinear =>
      if s.rule == RuleExplicit then Some(s.valueSize)
      else if s.rule == RuleConstant then Some(IndexedSize(s))
      else None
    case RuleExplicit => Some(s.valueSize)
    case RuleConstant | RuleUnknown => None
  }

  /** The bytes by which the conversion advances from value to value. */
  function Stride(s: SignalState, e: Encoding): nat {
    Skip(s.rule == RuleExplicit) + e.width
  }

  /** The conversion of a delivered packet reads within the packet. */
  predicate Inside(s: SignalState, e: Encoding, event: Event) {
    event.Values? ==> event.valueCount * Stride(s, e) <= |event.data|
  }

  ghost predicate AlwaysInside(s: SignalState, e: Encoding, clock: Option<SignalState>) {
    forall number: nat, data: seq<Byte> ::
      forall event :: event in Read(s, number, data, clock).events ==> Inside(s, e, event)
  }

  /** A value is counted with at least the bytes that the conversion takes. */
  predicate Roomy(s: SignalState, e: Encoding, clock: Option<SignalState>) {
    var size := CountedSize(s, clock);
    size.Some? && size.value != 0 ==> Stride(s, e) <= size.value
  }

  /** The callbacks of a packet, by the size with which it is counted. */
  lemma CountedBySize(s: SignalState, number: nat, data: seq<Byte>, clock: Option<SignalState>)
    ensures var size, events := CountedSize(s, clock), Read(s, number, data, clock).events;
            && (size.None? ==> events == [])
            && (size.Some? && events != [] ==>
                 && |events| == 2 && events[0].Raw? && events[1].Values? && events[1].data == data
                 && events[1].valueCount == Quotient(|data|, size.value))
            && (size.Some? && EvenMultiple(|data|, size.value) ==> events != [])
  {
  }

  lemma CountInside(length: nat, size: nat, stride: nat)
    requires size != 0 ==> stride <= size
    ensures Quotient(length, size) * stride <= length
  {
    hide Quotient;
    if size == 0 {
      NoQuotient(length);
    } else {
      QuotientBounds(length, size);
      MulMonotone(stride, size, Quotient(length, size));
    }
  }

  lemma NoQuotient(length: nat)
    ensures Quotient(length, 0) == 0
  {
  }

  lemma OneValue(size: nat)
    requires size > 0
    ensures Quotient(size, size) == 1 && EvenMultiple(size, size)
  {
    QuotientOfProduct(1, size);
  }

  /** The conversion stays within every packet a signal delivers if and only if a value is counted
      with at least the bytes the conversion takes. */
  lemma InsideIff(s: SignalState, e: Encoding, clock: Option<SignalState>)
    ensures AlwaysInside(s, e, clock) <==> Roomy(s, e, clock)
  {
    hide Read, Quotient, EvenMultiple, CountedSize;
    var size := CountedSize(s, clock);
    if Roomy(s, e, clock) {
      forall number: nat, data: seq<Byte>, event | event in Read(s, number, data, clock).events
        ensures Inside(s, e, event)
      {
        CountedBySize(s, number, data, clock);
        if size.Some? {
          CountInside(|data|, size.value, Stride(s, e));
        }
      }
    } else {
      var data: seq<Byte> := seq(size.value, _ => 0);
      OneValue(size.value);
      CountedBySize(s, 1, data, clock);
      var events := Read(s, 1, data, clock).events;
      assert events[1] in events && !Inside(s, e, events[1]);
    }
  }

  /** Under a linear time signal this is the case exactly when the value size is at least the width
      that the conversion reads. */
  lemma LinearRoomyIff(s: SignalState, e: Encoding, clock: SignalState)
    requires clock.rule == RuleLinear && s.rule in {RuleExplicit, RuleConstant}
    requires 1 <= s.valueSize < 0x1_0000_0000_0000_0000 - 8
    ensures Roomy(s, e, Some(clock)) <==> e.width <= s.valueSize
  {
  }

  /** A definition leaves a signal whose value size is at least the width that is read if and only
      if the size computed from the description is not zero, or the size before was enough. */
  lemma DefinitionRoomyIff(s: SignalState, d: Definition, e: Encoding)
    requires Define(s, d).accepted && ReadAs(Define(s, d).state.valueType) == Some(e)
    ensures e.width <= Define(s, d).state.valueSize <==> Layout.ValueSize(d.layout) != 0 || e.width <= s.valueSize
  {
    hide Layout.ValueSize, DefineUnit;
    DefineFields(s, d);
    DefinedSize(s, d);
    if d.layout.kind.Base? || d.layout.kind.BitField? {
      StrideDividesValueSize(s, d.layout);
    } else {
      assert d.layout.kind.Missing?;
      NothingMissing(d.layout);
    }
  }

  lemma DefinedSize(s: SignalState, d: Definition)
    requires Define(s, d).accepted
    ensures Define(s, d).state.valueSize
         == if Layout.ValueSize(d.layout) != 0 then Layout.ValueSize(d.layout) else s.valueSize
  {
  }

  lemma NothingMissing(n: Layout.Node)
    requires n.kind.Missing?
    ensures Layout.ValueSize(n) == 0
  {
  }

  /** A 64-bit real with dimensions that are not supported. */
  const ODD_REAL := NO_DEFINITION.(layout := Layout.Node(Layout.Unsupported, Layout.Base(Layout.Real64)))

  /** The description is accepted, the value size stays at its initial four bytes, and an eight byte
      packet is called back as two values, for which the conversion takes sixteen bytes. */
  lemma ConversionLeavesPacket(clock: SignalState, number: nat, data: seq<Byte>)
    requires clock.rule == RuleLinear && |data| == 8
    ensures var o := Define(INITIAL, ODD_REAL);
            && o.accepted && o.state.valueSize == 4 && ReadAs(o.state.valueType) == Some(Encoding(8, false))
            && var events := Read(o.state, number, data, Some(clock)).events;
               && |events| == 2 && events[1].Values? && events[1].valueCount == 2
               && !Inside(o.state, Encoding(8, false), events[1])
  {
    hide Define, Read, Quotient, EvenMultiple;
    OddRealDescribed();
    QuotientOfProduct(2, 4);
    CountedBySize(Define(INITIAL, ODD_REAL).state, number, data, Some(clock));
  }

  lemma OddRealDescribed()
    ensures var o := Define(INITIAL, ODD_REAL);
            && o.accepted && o.state.rule == RuleExplicit && o.state.valueSize == 4
            && o.state.valueType == SampleOf(Layout.Real64)
  {
    hide Define;
    DefineAcceptedIff(INITIAL, ODD_REAL);
    DefineFields(INITIAL, ODD_REAL);
    DefinedSize(INITIAL, ODD_REAL);
    assert Layout.ValueSize(ODD_REAL.layout) == 0;
  }

  /** A signal in step with its producer is always roomy. */
  lemma InStepRoomy(e: Producer.Signal, s: SignalState, clock: Producer.Signal, k: SignalState, x: Encoding)
    requires !e.Clock? && clock.Clock? && Lockstep.Matches(e, s) && Lockstep.Matches(clock, k)
    requires ReadAs(s.valueType) == Some(x)
    ensures x.width == Layout.Width(e.base) && Roomy(s, x, Some(k)) && AlwaysInside(s, x, Some(k))
  {
    hide AlwaysInside;
    LinearRoomyIff(s, x, k);
    InsideIff(s, x, Some(k));
  }

  // ------------------------------------------------------------------ values through to the conversion

  /** Constant-rule values and indices, written by the producer and delivered by the consumer: as
      many values as were written, a conversion within the packet, and each value read back if and
      only if it is in the range of the type it is read as. */
  lemma ConstantsArrive(w: Producer.World, c: Container.State, n: nat, values: seq<int>, indices: seq<Word64>)
    requires Lockstep.InStep(w, c) && n in w.subscribed && n in w.signals && w.signals[n].Const?
    requires Producer.ClockIn(w, w.signals[n].table) != 0
    requires !w.signals[n].base.Complex32? && !w.signals[n].base.Complex64?
    requires |values| == |indices| && Storable(values, Layout.Width(w.signals[n].base))
    ensures ReadAs(SampleOf(w.signals[n].base)).Some?
    ensures var x := ReadAs(SampleOf(w.signals[n].base)).value;
            x.width == Layout.Width(w.signals[n].base)
    ensures var x := ReadAs(SampleOf(w.signals[n].base)).value;
            var b := Producer.Flatten(Entries(values, indices, x.width));
            var events := Container.ProcessData(c, n, b).events;
            && |events| == 2 && events[1].Values? && events[1].data == b && events[1].valueCount == |values|
            && |values| * (8 + x.width) <= |b|
            && forall i :: 0 <= i < |values| ==> (ValueAt(false, x, b, i) == values[i] <==> InRange(values[i], x))
  {
    hide Producer.Flatten, Entries, Quotient, Container.ProcessData, Lockstep.InStep, ValueAt, InRange;
    ConvertedIff(SampleOf(w.signals[n].base));
    var x := ReadAs(SampleOf(w.signals[n].base)).value;
    WidthRead(w.signals[n].base, x);
    var b := Producer.Flatten(Entries(values, indices, x.width));
    WholeCount(Entries(values, indices, x.width), 8 + x.width);
    Lockstep.ConstDelivered(w, c, n, b, |values|);
    forall i | 0 <= i < |values| ensures ValueAt(false, x, b, i) == values[i] <==> InRange(values[i], x) {
      ConstantRoundTripIff(values, indices, x, i);
    }
    CountInside(|b|, 8 + x.width, 8 + x.width);
  }

  lemma WidthRead(base: Layout.BaseType, x: Encoding)
    requires ReadAs(SampleOf(base)) == Some(x)
    ensures x.width == Layout.Width(base) && x.width >= 1
  {
  }

  /** Values in memory, one after the other. */
  function Packed(values: seq<int>, width: nat): (r: seq<seq<Byte>>)
    requires Storable(values, width)
    ensures |r| == |values| && forall i :: 0 <= i < |r| ==> r[i] == ToBytes(values[i], width)
  {
    seq(|values|, i requires 0 <= i < |values| => ToBytes(values[i], width))
  }

  lemma ExplicitRoundTripIff(values: seq<int>, x: Encoding, i: nat)
    requires Storable(values, x.width) && x.width >= 1 && i < |values|
    ensures ValueAt(true, x, Producer.Flatten(Packed(values, x.width)), i) == values[i] <==> InRange(values[i], x)
  {
    hide FromBytes, ToBytes, InRange, Producer.Flatten, Packed;
    EntriesWhole(Packed(values, x.width), x.width);
    Producer.FlattenAt(Packed(values, x.width), x.width, i);
    ValueRoundTripIff(values[i], x);
  }

  /** The same for the values of a synchronous signal. */
  lemma ValuesArrive(w: Producer.World, c: Container.State, n: nat, values: seq<int>)
    requires Lockstep.InStep(w, c) && n in w.subscribed && n in w.signals && w.signals[n].Sync?
    requires Producer.ClockIn(w, w.signals[n].table) != 0
    requires !w.signals[n].base.Complex32? && !w.signals[n].base.Complex64?
    requires Storable(values, Layout.Width(w.signals[n].base))
    ensures ReadAs(SampleOf(w.signals[n].base)).Some?
    ensures var x := ReadAs(SampleOf(w.signals[n].base)).value;
            x.width == Layout.Width(w.signals[n].base)
    ensures var x := ReadAs(SampleOf(w.signals[n].base)).value;
            var b := Producer.Flatten(Packed(values, x.width));
            var events := Container.ProcessData(c, n, b).events;
            && |events| == 2 && events[1].Values? && events[1].data == b && events[1].valueCount == |values|
            && |values| * x.width <= |b|
            && forall i :: 0 <= i < |values| ==> (ValueAt(true, x, b, i) == values[i] <==> InRange(values[i], x))
  {
    hide Producer.Flatten, Packed, Quotient, Container.ProcessData, Lockstep.InStep, ValueAt, InRange, Producer.TimeOf;
    ConvertedIff(SampleOf(w.signals[n].base));
    var x := ReadAs(SampleOf(w.signals[n].base)).value;
    WidthRead(w.signals[n].base, x);
    var b := Producer.Flatten(Packed(values, x.width));
    WholeCount(Packed(values, x.width), x.width);
    Lockstep.SyncDelivered(w, c, n, b, |values|);
    forall i | 0 <= i < |values| ensures ValueAt(true, x, b, i) == values[i] <==> InRange(values[i], x) {
      ExplicitRoundTripIff(values, x, i);
    }
    CountInside(|b|, x.width, x.width);
  }
}
