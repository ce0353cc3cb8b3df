/** A linear rule comes with a delta that is not zero: when this holds for all signals of a container
    over a whole run. Descriptions write the delta of a signal, and so does data: a value signal
    takes over the delta of its time signal with every packet. */
module LinearRule {
  import opened Words
  import opened Messages
  import opened Signals
  import opened Container
  import Tables

  ghost predicate AllLinearValid(c: State) {
    forall n :: n in c.signals ==> LinearValid(c.signals[n])
  }

  /** A description sets the delta of a signal with linear rule to zero and does not mention the
      rule, so that the check for zero is not made. */
  predicate ClearsDelta(c: State, i: Tables.Input) {
    && i.Meta? && i.message.Signal? && i.number in c.signals
    && c.signals[i.number].rule == RuleLinear
    && i.message.definition.Some?
    && i.message.definition.value.rule.None?
    && i.message.definition.value.linearDelta == Some(Numeric(0))
  }

  lemma DescriptionValidIff(c: State, n: nat, m: Message)
    requires AllLinearValid(c) && m.Signal? && n in c.signals && Describe(c.signals[n], m).accepted
    ensures LinearValid(Describe(c.signals[n], m).state) <==> !ClearsDelta(c, Tables.Meta(n, m))
  {
    hide Define;
    var s := c.signals[n];
    if m.definition.Some? {
      LinearValidIff(s.(tableId := IdText(m.tableId, s.tableId), valueIndex := m.valueIndex.GetOr(s.valueIndex)),
                     m.definition.value);
    }
  }

  lemma MetaValidIff(c: State, n: nat, m: Message)
    requires AllLinearValid(c) && ProcessMeta(c, n, m).accepted
    ensures AllLinearValid(ProcessMeta(c, n, m).state) <==> !ClearsDelta(c, Tables.Meta(n, m))
  {
    hide Describe, LinearValid;
    match m {
      case Signal(_, _, _) =>
        DescriptionValidIff(c, n, m);
        assert ProcessMeta(c, n, m).state.signals[n] == Describe(c.signals[n], m).state;
      case Subscribe(_) => assert LinearValid(Describe(INITIAL, m).state) by { FreshValid(m); }
      case _ =>
    }
  }

  lemma FreshValid(m: Message)
    requires m.Subscribe?
    ensures LinearValid(Describe(INITIAL, m).state)
  {
  }

  /** A value signal takes its delta from a time signal with linear rule only. */
  lemma ReadValid(s: SignalState, n: nat, data: seq<Byte>, clock: Option<SignalState>)
    requires LinearValid(s) && (clock.Some? ==> LinearValid(clock.value))
    ensures LinearValid(Read(s, n, data, clock).state)
  {
  }

  lemma DataValid(c: State, n: nat, data: seq<Byte>)
    requires AllLinearValid(c)
    ensures AllLinearValid(ProcessData(c, n, data).state)
  {
    hide Read, ReadWord64;
    if n in c.signals {
      var s := c.signals[n];
      if s.isTime {
        ReadValid(s, n, data, None);
        ReadValid(s.(time := ReadWord64(data, 0)), n, data, None);
      } else if s.tableId in c.tables {
        var time := c.tables[s.tableId].time;
        ReadValid(s, n, data, if time in c.signals then Some(c.signals[time]) else None);
      }
    }
  }

  ghost predicate ValidThroughout(c: State, run: seq<Tables.Input>)
    decreases |run|
  {
    AllLinearValid(c) &&
    (run != [] && !Tables.Ends(c, run[0]) ==> ValidThroughout(Tables.Process(c, run[0]).state, run[1..]))
  }

  predicate NeverCleared(c: State, run: seq<Tables.Input>)
    decreases |run|
  {
    run != [] && !Tables.Ends(c, run[0]) ==>
      !ClearsDelta(c, run[0]) && NeverCleared(Tables.Process(c, run[0]).state, run[1..])
  }

  /** Over every run of messages and data, up to the first rejected message, every linear rule has a
      delta that is not zero after every step if and only if no accepted description sets the delta
      of a signal with linear rule to zero without mentioning the rule. */
  lemma {:induction false} LinearRunIff(c: State, run: seq<Tables.Input>)
    requires AllLinearValid(c)
    ensures ValidThroughout(c, run) <==> NeverCleared(c, run)
    decreases |run|
  {
    hide ProcessMeta, ProcessData, AllLinearValid;
    if run != [] && !Tables.Ends(c, run[0]) {
      match run[0] {
        case Meta(n, m) => MetaValidIff(c, n, m);
        case Data(n, bytes) => DataValid(c, n, bytes);
      }
      if !ClearsDelta(c, run[0]) {
        LinearRunIff(Tables.Process(c, run[0]).state, run[1..]);
      }
    }
  }

  /** The runs that start with nothing subscribed. */
  lemma LinearFromStartIff(run: seq<Tables.Input>)
    ensures ValidThroughout(EMPTY, run) <==> NeverCleared(EMPTY, run)
  {
    LinearRunIff(EMPTY, run);
  }

  /** A zero delta spreads: a packet makes it the delta of a value signal with linear rule. */
  lemma ZeroDeltaSpreads(s: SignalState, n: nat, data: seq<Byte>, clock: SignalState)
    requires s.rule == RuleLinear && s.delta != 0 && clock.rule == RuleLinear && clock.delta == 0
    ensures LinearValid(s) && !LinearValid(Read(s, n, data, Some(clock)).state)
  {
  }
}
