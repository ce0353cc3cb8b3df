/** The table index is exact: it is what a plain scan of the subscribed signals would compute. */
module Tables {
  import opened Words
  import opened Values
  import opened Messages
  import opened Signals
  import opened Container

  // ------------------------------------------------------------------ the reference: a plain scan

  /** The time signals of table t among the signals described so far. */
  ghost function Clocks(signals: map<nat, SignalState>, described: set<nat>, t: string): set<nat> {
    set n | n in described && n in signals && signals[n].tableId == t && signals[n].isTime
  }

  /** The value signals of table t among the signals described so far. */
  ghost function Members(signals: map<nat, SignalState>, described: set<nat>, t: string): set<nat> {
    set n | n in described && n in signals && signals[n].tableId == t && !signals[n].isTime
  }

  /** The index agrees with the scan: there is an entry exactly for each table that has a described
      signal, it holds that table's value signals, and its time signal is the only one the table
      has, or 0 when the table has none. A signal gets its time role from a description only. */
  ghost predicate Exact(c: State, described: set<nat>) {
    && described <= c.signals.Keys
    && UndescribedAreValues(c, described)
    && (forall t :: t in c.tables <==>
          Clocks(c.signals, described, t) != {} || Members(c.signals, described, t) != {})
    && (forall t :: t in c.tables ==> c.tables[t].data == Members(c.signals, described, t))
    && (forall t :: t in c.tables ==>
          Clocks(c.signals, described, t) == if c.tables[t].time == 0 then {} else {c.tables[t].time})
  }

  ghost predicate UndescribedAreValues(c: State, described: set<nat>) {
    forall n :: n in c.signals && n !in described ==> !c.signals[n].isTime
  }

  // ------------------------------------------------------------------ the same, signal by signal

  /** Where the index files a signal. */
  ghost predicate Filed(c: State, n: nat) {
    && n in c.signals
    && c.signals[n].tableId in c.tables
    && var t := c.tables[c.signals[n].tableId];
       if c.signals[n].isTime then n != 0 && t.time == n else n in t.data
  }

  /** What a table entry may refer to. */
  ghost predicate Sound(c: State, described: set<nat>, t: string)
    requires t in c.tables
  {
    var e := c.tables[t];
    && (e.time != 0 || e.data != {})
    && (e.time != 0 ==>
          e.time in described && e.time in c.signals && c.signals[e.time].isTime && c.signals[e.time].tableId == t)
    && (forall n :: n in e.data ==>
          n in described && n in c.signals && !c.signals[n].isTime && c.signals[n].tableId == t)
  }

  ghost predicate Indexed(c: State, described: set<nat>) {
    && UndescribedAreValues(c, described)
    && (forall n :: n in described ==> Filed(c, n))
    && (forall t :: t in c.tables ==> Sound(c, described, t))
  }

  lemma ExactIndexed(c: State, described: set<nat>)
    requires Exact(c, described)
    ensures Indexed(c, described)
  {
    forall n | n in described ensures Filed(c, n) {
      var t := c.signals[n].tableId;
      assert n in Clocks(c.signals, described, t) || n in Members(c.signals, described, t);
    }
    forall t | t in c.tables ensures Sound(c, described, t) {
      var e := c.tables[t];
      assert e.time != 0 ==> e.time in Clocks(c.signals, described, t);
    }
  }

  lemma IndexedExact(c: State, described: set<nat>)
    requires Indexed(c, described)
    ensures Exact(c, described)
  {
    forall n | n in described ensures n in c.signals { assert Filed(c, n); }
    forall t | t in c.tables
      ensures c.tables[t].data == Members(c.signals, described, t)
      ensures Clocks(c.signals, described, t) == if c.tables[t].time == 0 then {} else {c.tables[t].time}
    {
      assert Sound(c, described, t);
      forall n | n in Members(c.signals, described, t) || n in Clocks(c.signals, described, t) ensures Filed(c, n) {}
    }
    forall t | Clocks(c.signals, described, t) != {} || Members(c.signals, described, t) != {} ensures t in c.tables {
      var n :| n in Clocks(c.signals, described, t) || n in Members(c.signals, described, t);
      assert Filed(c, n);
    }
    forall t | t in c.tables
      ensures Clocks(c.signals, described, t) != {} || Members(c.signals, described, t) != {}
    {
      assert Sound(c, described, t);
    }
  }

  lemma ExactIffIndexed(c: State, described: set<nat>)
    ensures Exact(c, described) <==> Indexed(c, described)
  {
    if Exact(c, described) {
      ExactIndexed(c, described);
    }
    if Indexed(c, described) {
      IndexedExact(c, described);
    }
  }

  // ------------------------------------------------------------------ one message

  /** The signals that have been described since they were subscribed. */
  function DescribedAfter(described: set<nat>, n: nat, m: Message): set<nat> {
    match m
    case Signal(_, _, _) => described + {n}
    case Unsubscribe => described - {n}
    case _ => described
  }

  /** The table and the role a description asks for, from its members and the signal before it. */
  function NewTable(s: SignalState, m: Message): string
    requires m.Signal?
  {
    IdText(m.tableId, s.tableId)
  }

  function NewRole(s: SignalState, m: Message): bool
    requires m.Signal?
  {
    s.isTime || (m.definition.Some? && s.unit.Parse(m.definition.value.unit).quantity == QUANTITY_TIME)
  }

  /** An accepted description gives the signal the table and the role it asks for. */
  lemma AcceptedTableAndRole(s: SignalState, m: Message)
    requires m.Signal? && Describe(s, m).accepted
    ensures Describe(s, m).state.tableId == NewTable(s, m)
    ensures Describe(s, m).state.isTime == NewRole(s, m)
  {
    hide Define;
    if m.definition.Some? {
      DefineFields(s.(tableId := IdText(m.tableId, s.tableId), valueIndex := m.valueIndex.GetOr(s.valueIndex)),
                   m.definition.value);
    }
  }

  /** The discipline a description has to follow, a condition on the message and the index before
      it: a described signal keeps its table and its role, and a time signal has a non-zero number
      and is the only one of its table. */
  ghost predicate Disciplined(c: State, described: set<nat>, n: nat, m: Message) {
    m.Signal? && n in c.signals ==>
      var s := c.signals[n];
      var table := NewTable(s, m);
      && (n in described ==> table == s.tableId && NewRole(s, m) == s.isTime)
      && (NewRole(s, m) ==> n != 0 && (table in c.tables ==> c.tables[table].time in {0, n}))
  }

  /** Filing signal n with its new state s'. */
  lemma AttachKeepsIndex(c: State, described: set<nat>, n: nat, s': SignalState)
    requires Indexed(c, described) && n in c.signals
    requires n in described ==> s'.tableId == c.signals[n].tableId && s'.isTime == c.signals[n].isTime
    requires s'.isTime ==> n != 0 && (s'.tableId in c.tables ==> c.tables[s'.tableId].time in {0, n})
    ensures Indexed(State(c.signals[n := s'], Attach(c.tables, n, s')), described + {n})
  {
    hide Attach, Filed, Sound;
    var c' := State(c.signals[n := s'], Attach(c.tables, n, s'));
    forall k | k in described + {n} ensures Filed(c', k) {
      AttachFiles(c, described, n, s', k);
    }
    forall t | t in c'.tables ensures Sound(c', described + {n}, t) {
      AttachSound(c, described, n, s', t);
    }
  }

  lemma AttachFiles(c: State, described: set<nat>, n: nat, s': SignalState, k: nat)
    requires Indexed(c, described) && n in c.signals && k in described + {n}
    requires n in described ==> s'.tableId == c.signals[n].tableId && s'.isTime == c.signals[n].isTime
    requires s'.isTime ==> n != 0 && (s'.tableId in c.tables ==> c.tables[s'.tableId].time in {0, n})
    ensures Filed(State(c.signals[n := s'], Attach(c.tables, n, s')), k)
  {
    hide Sound;
    if k != n {
      assert Filed(c, k);
    }
  }

  lemma AttachSound(c: State, described: set<nat>, n: nat, s': SignalState, t: string)
    requires Indexed(c, described) && n in c.signals && t in Attach(c.tables, n, s')
    requires n in described ==> s'.tableId == c.signals[n].tableId && s'.isTime == c.signals[n].isTime
    requires s'.isTime ==> n != 0 && (s'.tableId in c.tables ==> c.tables[s'.tableId].time in {0, n})
    ensures Sound(State(c.signals[n := s'], Attach(c.tables, n, s')), described + {n}, t)
  {
    hide Filed;
    if t in c.tables {
      assert Sound(c, described, t);
    }
  }

  lemma UndisciplinedBreaksIndex(c: State, described: set<nat>, n: nat, m: Message)
    requires Indexed(c, described) && m.Signal? && ProcessMeta(c, n, m).accepted && !Disciplined(c, described, n, m)
    ensures !Indexed(ProcessMeta(c, n, m).state, described + {n})
  {
    var c' := ProcessMeta(c, n, m).state;
    var s, s' := c.signals[n], c'.signals[n];
    AcceptedTableAndRole(s, m);
    if n in described && (s'.tableId != s.tableId || s'.isTime != s.isTime) {
      // the old entry still lists the signal under its old table or role
      assert Filed(c, n);
      assert !Sound(c', described + {n}, s.tableId);
    } else if n == 0 {
      assert !Filed(c', n);
    } else {
      // the table loses its other time signal
      assert Sound(c, described, s'.tableId);
      assert !Filed(c', c.tables[s'.tableId].time);
    }
  }

  /** Removing signal n from the index and from the signals. */
  lemma DetachKeepsIndex(c: State, described: set<nat>, n: nat)
    requires Indexed(c, described) && n in c.signals
    ensures Indexed(State(c.signals - {n}, Detach(c.tables, n, c.signals[n])), described - {n})
  {
    var c' := State(c.signals - {n}, Detach(c.tables, n, c.signals[n]));
    if n in described { assert Filed(c, n); }
    forall k | k in described - {n} ensures Filed(c', k) {
      assert Filed(c, k);
    }
    forall t | t in c'.tables ensures Sound(c', described - {n}, t) {
      assert Sound(c, described, t);
    }
  }

  /** The index depends on nothing but tables and roles. */
  lemma SameShapeIndexed(c: State, c': State, described: set<nat>)
    requires Indexed(c, described) && c'.tables == c.tables && c.signals.Keys <= c'.signals.Keys
    requires forall n :: n in c.signals ==>
               c'.signals[n].tableId == c.signals[n].tableId && c'.signals[n].isTime == c.signals[n].isTime
    requires forall n :: n in c'.signals && n !in c.signals ==> !c'.signals[n].isTime
    ensures Indexed(c', described)
  {
    forall n | n in described ensures Filed(c', n) { assert Filed(c, n); }
    forall t | t in c'.tables ensures Sound(c', described, t) { assert Sound(c, described, t); }
  }

  /** From an exact index, an accepted message leads to an exact index if and only if it follows
      the discipline. */
  lemma MetaExactIff(c: State, described: set<nat>, n: nat, m: Message)
    requires Exact(c, described) && ProcessMeta(c, n, m).accepted
    ensures Exact(ProcessMeta(c, n, m).state, DescribedAfter(described, n, m)) <==> Disciplined(c, described, n, m)
  {
    ExactIffIndexed(c, described);
    ExactIffIndexed(ProcessMeta(c, n, m).state, DescribedAfter(described, n, m));
    match m {
      case Signal(_, _, _) =>
        AcceptedTableAndRole(c.signals[n], m);
        if Disciplined(c, described, n, m) {
          AttachKeepsIndex(c, described, n, Describe(c.signals[n], m).state);
        } else {
          UndisciplinedBreaksIndex(c, described, n, m);
        }
      case Unsubscribe => DetachKeepsIndex(c, described, n);
      case Subscribe(_) => SameShapeIndexed(c, ProcessMeta(c, n, m).state, described);
      case _ =>
    }
  }

  lemma DataKeepsExact(c: State, described: set<nat>, n: nat, data: seq<Byte>)
    requires Exact(c, described)
    ensures Exact(ProcessData(c, n, data).state, described)
  {
    DataFrame(c, n, data);
    var c' := ProcessData(c, n, data).state;
    ExactIffIndexed(c, described);
    SameShapeIndexed(c, c', described);
    ExactIffIndexed(c', described);
  }

  // ------------------------------------------------------------------ whole runs

  datatype Input = Meta(number: nat, message: Message) | Data(number: nat, bytes: seq<Byte>)

  function Process(c: State, i: Input): Result {
    match i
    case Meta(n, m) => ProcessMeta(c, n, m)
    case Data(n, bytes) => ProcessData(c, n, bytes)
  }

  /** A rejected meta message ends the run; refused data does not. */
  predicate Ends(c: State, i: Input) {
    i.Meta? && !Process(c, i).accepted
  }

  /** All inputs in order, up to and including the first that ends the run. */
  function ProcessAll(c: State, run: seq<Input>): Result
    decreases |run|
  {
    if run == [] then Result(c, [], true) else
      var r := Process(c, run[0]);
      if Ends(c, run[0]) then Result(r.state, r.events, false) else
        var rest := ProcessAll(r.state, run[1..]);
        Result(rest.state, r.events + rest.events, rest.accepted)
  }

  function DescribedBy(described: set<nat>, i: Input): set<nat> {
    if i.Meta? then DescribedAfter(described, i.number, i.message) else described
  }

  ghost predicate ExactThroughout(c: State, described: set<nat>, run: seq<Input>)
    decreases |run|
  {
    Exact(c, described) &&
    (run != [] && !Ends(c, run[0]) ==>
      ExactThroughout(Process(c, run[0]).state, DescribedBy(described, run[0]), run[1..]))
  }

  ghost predicate DisciplinedThroughout(c: State, described: set<nat>, run: seq<Input>)
    decreases |run|
  {
    run != [] && !Ends(c, run[0]) ==>
      && (run[0].Meta? ==> Disciplined(c, described, run[0].number, run[0].message))
      && DisciplinedThroughout(Process(c, run[0]).state, DescribedBy(described, run[0]), run[1..])
  }

  /** Over every run of meta messages and data, up to the first rejected meta message, the index
      is exact after every step if and only if every description follows the discipline. */
  lemma {:induction false} ExactRunIff(c: State, described: set<nat>, run: seq<Input>)
    requires Exact(c, described)
    ensures ExactThroughout(c, described, run) <==> DisciplinedThroughout(c, described, run)
    decreases |run|
  {
    if run != [] && !Ends(c, run[0]) {
      var c', d' := Process(c, run[0]).state, DescribedBy(described, run[0]);
      match run[0] {
        case Meta(n, m) =>
          MetaExactIff(c, described, n, m);
          if Disciplined(c, described, n, m) {
            ExactRunIff(c', d', run[1..]);
          }
        case Data(n, bytes) =>
          DataKeepsExact(c, described, n, bytes);
          ExactRunIff(c', d', run[1..]);
      }
    }
  }

  /** The runs that start with nothing subscribed. */
  lemma ExactFromStartIff(run: seq<Input>)
    ensures ExactThroughout(EMPTY, {}, run) <==> DisciplinedThroughout(EMPTY, {}, run)
  {
    ExactRunIff(EMPTY, {}, run);
  }

  // ------------------------------------------------------------------ a run without discipline

  /** A description as time signal of table t. */
  const AS_CLOCK :=
    Signal(Some(Text("t")), None, Some(NO_DEFINITION.(unit := UnitPatch(None, None, Some(QUANTITY_TIME)))))

  lemma ClockDescribed(s: SignalState)
    ensures Describe(s, AS_CLOCK).accepted
    ensures Describe(s, AS_CLOCK).state.isTime && Describe(s, AS_CLOCK).state.tableId == "t"
  {
    var s1 := s.(tableId := "t");
    DefineAcceptedIff(s1, Patch(AS_CLOCK));
    DefineFields(s1, Patch(AS_CLOCK));
  }

  /** Two time signals are described in one table and the second is unsubscribed: everything is
      accepted, and the table is gone while the first time signal is still subscribed. */
  lemma SecondClockRemovesTable(c: State)
    requires c.tables == map[] && 1 in c.signals && 2 in c.signals
    ensures var r1 := ProcessMeta(c, 1, AS_CLOCK);
            var r2 := ProcessMeta(r1.state, 2, AS_CLOCK);
            var r3 := ProcessMeta(r2.state, 2, Unsubscribe);
            && r1.accepted && r2.accepted && r3.accepted
            && r3.state.tables == map[]
            && 1 in r3.state.signals && r3.state.signals[1].isTime && r3.state.signals[1].tableId == "t"
  {
    hide Describe;
    ClockDescribed(c.signals[1]);
    ClockDescribed(c.signals[2]);
  }
}
