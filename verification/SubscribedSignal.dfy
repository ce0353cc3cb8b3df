/** The consumer's signal object, updated in place by descriptions and data. */
module SubscribedSignals {
  import opened Words
  import opened Values
  import opened Messages
  import opened Signals
  import Layout

  class SubscribedSignal {
    const number: nat
    var signalId: string
    var tableId: string
    var isTime: bool
    var valueType: SampleType
    var valueSize: Word64
    var rule: RuleType
    var time: Word64
    var delta: Word64
    var valueIndex: Word64
    var resolution: Resolution
    var timeBaseFrequency: Word64
    var unit: Unit
    var range: Range
    var scaling: PostScaling
    var constantStart: Option<NumberNode>

    function View(): SignalState
      reads this
    {
      SignalState(signalId, tableId, isTime, valueType, valueSize, rule, time, delta, valueIndex,
                  resolution, timeBaseFrequency, unit, range, scaling, constantStart)
    }

    ghost predicate Valid()
      reads this
    {
      Safe(View())
    }

    constructor (number: nat)
      ensures Valid() && this.number == number && View() == INITIAL
    {
      this.number := number;
      signalId, tableId, isTime := "", "", false;
      valueType, valueSize, rule := SampleUnknown, 4, RuleExplicit;
      time, delta, valueIndex := 0, 0, 0;
      resolution, timeBaseFrequency := UNIT_RESOLUTION, 0;
      unit, range, scaling := NO_UNIT, NO_RANGE, ONE_TO_ONE;
      constantStart := None;
    }

    method SetTime(t: Word64)
      modifies this`time
      ensures View() == old(View()).(time := t)
    {
      time := t;
    }

    method SetTimeIndex(index: Word64)
      modifies this`valueIndex
      ensures View() == old(View()).(valueIndex := index)
    {
      valueIndex := index;
    }

    // ---------------------------------------------------------------- meta information

    method DefineUnit(d: Definition) returns (accepted: bool)
      requires Valid()
      modifies this
      ensures Outcome(View(), accepted) == Signals.DefineUnit(old(View()), d)
    {
      hide Quotient;
      unit := unit.Parse(d.unit);
      if unit.quantity == QUANTITY_TIME {
        isTime := true;
      }
      var result := resolution.ParseResult(d.resolution);
      resolution := resolution.Parse(d.resolution);
      if result == 1 {
        if !InSeconds(unit) {
          return false;
        }
        QuotientIsDivision(resolution.denominator, resolution.numerator);
        timeBaseFrequency := Wrap(resolution.denominator / resolution.numerator);
      }
      range := range.Parse(d.range);
      scaling := scaling.Parse(d.scaling);
      return true;
    }

    method DefineType(d: Definition) returns (accepted: bool)
      requires Valid()
      modifies this
      ensures Outcome(View(), accepted) == Signals.DefineType(old(View()), d)
    {
      hide Signals.DefineUnit, Layout.Leaves, Layout.Sum;
      var size := Layout.GetDataTypeSize(d.layout);
      if size != 0 {
        valueSize := size;
      }
      var newType := NewSampleType(View(), d.layout);
      if newType.None? {
        return false;
      }
      valueType := newType.value;
      accepted := DefineUnit(d);
    }

    method Define(d: Definition) returns (accepted: bool)
      requires Valid()
      modifies this
      ensures Outcome(View(), accepted) == Signals.Define(old(View()), d)
    {
      hide Signals.DefineType;
      if d.linearDelta.Some? {
        if d.linearDelta.value.NotNumeric? {
          return false;
        }
        delta := d.linearDelta.value.value;
      }
      if d.constantStart.Some? {
        constantStart := d.constantStart;
        if constantStart.value.NotNumeric? {
          return false;
        }
      }
      var newRule := NewRule(View(), d, delta);
      if newRule.None? {
        return false;
      }
      rule := newRule.value;
      accepted := DefineType(d);
    }

    /** A rejected message may have changed the signal before it was rejected. */
    method ProcessSignalMetaInformation(m: Message) returns (accepted: bool)
      requires Valid()
      modifies this
      ensures Valid()
      ensures Outcome(View(), accepted) == Describe(old(View()), m)
    {
      DescribeSafe(View(), m);
      match m {
        case Subscribe(id) =>
          if id.None? || id.value.NotAnId? {
            return false;
          }
          signalId := id.value.text;
          return true;
        case Signal(table, index, definition) =>
          if table.Some? {
            if table.value.NotAnId? {
              return false;
            }
            tableId := table.value.text;
          }
          if index.Some? {
            valueIndex := index.value;
          }
          if definition.None? {
            return true;
          }
          accepted := Define(definition.value);
        case _ =>
          return true;
      }
    }

    // ---------------------------------------------------------------- measured data

    /** Reads a packet with the table's time signal, or without one. */
    method ProcessMeasuredData(data: seq<Byte>, clock: SubscribedSignal?) returns (refused: bool, events: seq<Event>)
      requires Valid()
      modifies this
      ensures Valid()
      ensures Reading(View(), events, refused)
           == Read(old(View()), number, data, if clock == null then None else Some(old(clock.View())))
    {
      refused, events := false, [];
      ReadFrame(View(), number, data, if clock == null then None else Some(clock.View()));
      var clockRule := if clock == null then RuleExplicit else clock.rule;
      match clockRule {
        case RuleLinear =>
          delta := clock.delta;
          if rule == RuleExplicit {
            var timeStamp := Wrap(clock.time + Wrap(Wrap(valueIndex - clock.valueIndex) * delta));
            QuotientIsDivision(|data|, valueSize);
            var valueCount := |data| / valueSize;
            events := [Raw(number, timeStamp, data), Values(number, timeStamp, data, valueCount, delta)];
            valueIndex := Wrap(valueIndex + valueCount);
          } else if rule == RuleConstant {
            var valueCount := Quotient(|data|, Wrap(8 + valueSize));
            events := [Raw(number, clock.time, data), Values(number, clock.time, data, valueCount, delta)];
          }
        case RuleExplicit =>
          QuotientIsDivision(|data|, valueSize);
          if |data| % valueSize != 0 {
            return;
          }
          var t: Word64 := if clock == null then 0 else clock.time;
          events := [Raw(number, t, data), Values(number, t, data, |data| / valueSize, delta)];
        case RuleConstant =>
          refused := true;
        case RuleUnknown =>
          refused := true;
      }
    }
  }
}
