/** The consumer's container: the subscribed signals by number, and the table index that groups
    them by table id into one time signal and a set of value signals. */
module Container {
  import opened Words
  import opened Messages
  import opened Signals

  /** Time signal number 0 means that there is none. */
  datatype Table = Table(time: nat, data: set<nat>)

  datatype State = State(signals: map<nat, SignalState>, tables: map<string, Table>)

  const EMPTY := State(map[], map[])

  datatype Result = Result(state: State, events: seq<Event>, accepted: bool)

  // ------------------------------------------------------------------ meta information

  function Detach(tables: map<string, Table>, n: nat, s: SignalState): map<string, Table> {
    if s.tableId !in tables then tables else
      var t := tables[s.tableId];
      var t' := if s.isTime then t.(time := 0) else t.(data := t.data - {n});
      if t'.time == 0 && t'.data == {} then tables - {s.tableId} else tables[s.tableId := t']
  }

  function Attach(tables: map<string, Table>, n: nat, s: SignalState): map<string, Table> {
    var t := if s.tableId in tables then tables[s.tableId] else Table(0, {});
    tables[s.tableId := if s.isTime then t.(time := n) else t.(data := t.data + {n})]
  }

  function ProcessMeta(c: State, n: nat, m: Message): Result {
    match m
    case Unsubscribe =>
      if n !in c.signals then Result(c, [], false) else
        Result(State(c.signals - {n}, Detach(c.tables, n, c.signals[n])), [MetaEvent(n, m)], true)
    case Subscribe(id) =>
      if id.None? || n in c.signals then Result(c, [], false) else
        var o := Describe(INITIAL, m);
        Result(c.(signals := c.signals[n := o.state]), if o.accepted then [MetaEvent(n, m)] else [], o.accepted)
    case Signal(_, _, _) =>
      if n !in c.signals then Result(c, [], false) else
        var o := Describe(c.signals[n], m);
        var c1 := c.(signals := c.signals[n := o.state]);
        if !o.accepted then Result(c1, [], false) else
          Result(c1.(tables := Attach(c.tables, n, o.state)), [MetaEvent(n, m)], true)
    case _ =>
      if n !in c.signals then Result(c, [], false) else Result(c, [MetaEvent(n, m)], true)
  }

  // ------------------------------------------------------------------ measured data

  /** The 64-bit word at an offset; bytes beyond the end of the packet count as zero. */
  function ReadWord64(data: seq<Byte>, offset: nat): Word64 {
    Wrap(FromLE(Clip(data, offset, 8)))
  }

  /** A time packet takes effect only while its table has a value signal. */
  predicate HasValueSignal(c: State, table: string) {
    table in c.tables && c.tables[table].data != {}
  }

  function ProcessClockData(c: State, n: nat, data: seq<Byte>): Result
    requires n in c.signals
  {
    var s := c.signals[n];
    var effective := HasValueSignal(c, s.tableId);
    if s.rule == RuleExplicit then
      var s1 := if effective then s.(time := ReadWord64(data, 0)) else s;
      var r := Read(s1, n, data, None);
      Result(c.(signals := c.signals[n := r.state]), r.events, true)
    else
      var s1 := if effective then s.(time := ReadWord64(data, 8), valueIndex := ReadWord64(data, 0)) else s;
      Result(c.(signals := c.signals[n := s1]), [], true)
  }

  function ProcessData(c: State, n: nat, data: seq<Byte>): Result {
    if n !in c.signals then Result(c, [], false)
    else if c.signals[n].isTime then ProcessClockData(c, n, data)
    else if c.signals[n].tableId !in c.tables then Result(c, [], true)
    else
      var time := c.tables[c.signals[n].tableId].time;
      if time == 0 then Result(c, [], false) else
        var r := Read(c.signals[n], n, data, if time in c.signals then Some(c.signals[time]) else None);
        Result(c.(signals := c.signals[n := r.state]), r.events, !r.refused)
  }

  /** Data touches the addressed signal only, and neither its table nor its role. */
  lemma DataFrame(c: State, n: nat, data: seq<Byte>)
    ensures var r := ProcessData(c, n, data);
            && r.state.tables == c.tables
            && r.state.signals.Keys == c.signals.Keys
            && (forall k :: k in c.signals && k != n ==> r.state.signals[k] == c.signals[k])
            && (n in c.signals ==> r.state.signals[n].tableId == c.signals[n].tableId)
            && (n in c.signals ==> r.state.signals[n].isTime == c.signals[n].isTime)
            && (forall e :: e in r.events ==> (e.Raw? || e.Values?) && e.number == n)
  {
    if n in c.signals {
      var s := c.signals[n];
      if s.isTime {
        ReadFrame(s.(time := ReadWord64(data, 0)), n, data, None);
        ReadFrame(s, n, data, None);
      } else if s.tableId in c.tables {
        var time := c.tables[s.tableId].time;
        ReadFrame(s, n, data, if time in c.signals then Some(c.signals[time]) else None);
      }
    }
  }

  /** A message is called back if and only if it is accepted. It must be about a subscribed signal,
      except for the acknowledgement of a subscription, which must be about one that is not. */
  lemma MetaCallback(c: State, n: nat, m: Message)
    ensures var r := ProcessMeta(c, n, m);
            && r.events == (if r.accepted then [MetaEvent(n, m)] else [])
            && (r.accepted ==> (n in c.signals <==> !m.Subscribe?))
            && (!m.Subscribe? && !m.Signal? ==> (r.accepted <==> n in c.signals))
            && (!m.Subscribe? && !m.Signal? && !m.Unsubscribe? ==> r.state == c)
  {
  }

  /** A subscription is acknowledged with an id that is a text or a number, and gives a new signal
      with that id. */
  lemma SubscribedWithId(c: State, n: nat, id: Option<IdNode>)
    ensures var r := ProcessMeta(c, n, Subscribe(id));
            && (r.accepted <==> n !in c.signals && (id.Some? && (id.value.Text? || id.value.Number?)))
            && (r.accepted ==> n in r.state.signals && r.state.signals[n].signalId == id.value.text
                               && r.state.signals.Keys == c.signals.Keys + {n})
  {
  }

  /** A rejected description has changed the signal up to the point where it was rejected: here the
      value index, before an unknown rule. The table index and the callbacks do not see it. */
  lemma RejectedLeavesTraces(c: State, n: nat, index: Word64)
    requires n in c.signals
    ensures var r := ProcessMeta(c, n, Signal(None, Some(index), Some(NO_DEFINITION.(rule := Some(UnknownRule)))));
            && !r.accepted && r.events == [] && r.state.tables == c.tables
            && n in r.state.signals && r.state.signals[n] == c.signals[n].(valueIndex := index)
  {
  }

  /** Data is refused if and only if its signal is not subscribed, or is a value signal whose table
      has no time signal, or one whose rule cannot be that of a time signal. */
  lemma DataRefusedIff(c: State, n: nat, data: seq<Byte>)
    ensures !ProcessData(c, n, data).accepted <==>
              || n !in c.signals
              || (&& !c.signals[n].isTime && c.signals[n].tableId in c.tables
                  && var k := c.tables[c.signals[n].tableId].time;
                     k == 0 || (k in c.signals && c.signals[k].rule in {RuleConstant, RuleUnknown}))
  {
  }
}
