/** The container object: a map of signal objects and the table index, both updated in place. */
module SignalContainers {
  import opened Words
  import opened Messages
  import opened Signals
  import opened Container
  import opened SubscribedSignals

  class SignalContainer {
    var signals: map<nat, SubscribedSignal>
    var tables: map<string, Table>

    /** Every number has a signal object of its own. */
    ghost predicate Valid()
      reads this, signals.Values
    {
      && (forall n :: n in signals ==> signals[n].Valid() && signals[n].number == n)
    }

    ghost function View(): State
      reads this, signals.Values
    {
      State(map n | n in signals :: signals[n].View(), tables)
    }

    constructor ()
      ensures Valid() && View() == EMPTY && signals == map[]
    {
      signals, tables := map[], map[];
    }

    /** Removes a signal from the table index. */
    method Detach(n: nat, signal: SubscribedSignal)
      modifies this`tables
      ensures tables == Container.Detach(old(tables), n, signal.View())
    {
      if signal.tableId in tables {
        var table := tables[signal.tableId];
        if signal.isTime {
          table := table.(time := 0);
        } else {
          table := table.(data := table.data - {n});
        }
        if table.time == 0 && table.data == {} {
          tables := tables - {signal.tableId};
        } else {
          tables := tables[signal.tableId := table];
        }
      }
    }

    /** Adds a signal to the table index; nothing changes if it is already there. */
    method Attach(n: nat, signal: SubscribedSignal)
      modifies this`tables
      ensures tables == Container.Attach(old(tables), n, signal.View())
    {
      var table := if signal.tableId in tables then tables[signal.tableId] else Table(0, {});
      if signal.isTime {
        table := table.(time := n);
      } else {
        table := table.(data := table.data + {n});
      }
      tables := tables[signal.tableId := table];
    }

    method Unsubscribe(n: nat)
      requires Valid() && n in signals
      modifies this
      ensures Valid() && signals == old(signals) - {n}
      ensures View() == State(old(View()).signals - {n}, Container.Detach(old(tables), n, old(signals[n].View())))
    {
      hide Container.Detach, Safe;
      ghost var before := View();
      Detach(n, signals[n]);
      signals := signals - {n};
      assert View().signals == before.signals - {n};
    }

    /** A new signal; it stays in the map even if its id is refused. */
    method Subscribe(n: nat, m: Message) returns (accepted: bool)
      requires Valid() && m.Subscribe? && m.signalId.Some? && n !in signals
      modifies this`signals
      ensures Valid() && forall s :: s in signals.Values && s !in old(signals.Values) ==> fresh(s)
      ensures var o := Describe(INITIAL, m);
              View() == State(old(View()).signals[n := o.state], old(tables)) && accepted == o.accepted
    {
      hide Describe, Safe, SubscribedSignal.View, SubscribedSignal.Valid;
      ghost var before := View();
      var signal := new SubscribedSignal(n);
      signals := signals[n := signal];
      accepted := signal.ProcessSignalMetaInformation(m);
      assert View().signals == before.signals[n := signal.View()];
    }

    method DescribeSignal(n: nat, m: Message) returns (accepted: bool)
      requires Valid() && m.Signal? && n in signals
      modifies this`tables, signals[n]
      ensures Valid()
      ensures var o := Describe(old(signals[n].View()), m);
              && accepted == o.accepted
              && View() == State(old(View()).signals[n := o.state],
                                 if o.accepted then Container.Attach(old(tables), n, o.state) else old(tables))
    {
      hide Describe, Safe, Container.Attach, SubscribedSignal.View, SubscribedSignal.Valid;
      ghost var before := View();
      var signal := signals[n];
      accepted := signal.ProcessSignalMetaInformation(m);
      assert View().signals == before.signals[n := signal.View()];
      if accepted {
        Attach(n, signal);
      }
    }

    method ProcessMetaInformation(n: nat, m: Message) returns (accepted: bool, events: seq<Event>)
      requires Valid()
      modifies this, signals.Values
      ensures Valid() && forall s :: s in signals.Values && s !in old(signals.Values) ==> fresh(s)
      ensures Result(View(), events, accepted) == ProcessMeta(old(View()), n, m)
    {
      hide Describe, Container.Detach, Container.Attach, Safe;
      accepted, events := false, [];
      match m {
        case Unsubscribe =>
          if n !in signals {
            return;
          }
          Unsubscribe(n);
          accepted := true;
        case Subscribe(id) =>
          if id.None? || n in signals {
            return;
          }
          accepted := Subscribe(n, m);
        case Signal(_, _, _) =>
          if n !in signals {
            return;
          }
          accepted := DescribeSignal(n, m);
        case _ =>
          accepted := n in signals;
      }
      if accepted {
        events := [MetaEvent(n, m)];
      }
    }

    /** Hands a time stamp and a value index to the time signal, once for each value signal of the
        table: without a value signal nothing is set. */
    method SetAnchor(signal: SubscribedSignal, members: set<nat>, timeStamp: Word64, index: Option<Word64>)
      requires signal.Valid()
      modifies signal
      ensures signal.Valid()
      ensures signal.View() == if members == {} then old(signal.View()) else
                old(signal.View()).(time := timeStamp, valueIndex := index.GetOr(old(signal.valueIndex)))
    {
      var rest := members;
      while rest != {}
        invariant rest <= members
        invariant signal.View() == if rest == members then old(signal.View()) else
                    old(signal.View()).(time := timeStamp, valueIndex := index.GetOr(old(signal.valueIndex)))
        decreases rest
      {
        var k :| k in rest;
        rest := rest - {k};
        signal.SetTime(timeStamp);
        if index.Some? {
          signal.SetTimeIndex(index.value);
        }
      }
    }

    function Members(table: string): set<nat>
      reads this
    {
      if table in tables then tables[table].data else {}
    }

    /** With the explicit rule a time packet is a time stamp, which is also handed on as data. */
    method ProcessExplicitTime(n: nat, data: seq<Byte>) returns (events: seq<Event>)
      requires Valid() && n in signals && signals[n].rule == RuleExplicit
      modifies signals[n]
      ensures Valid()
      ensures Result(View(), events, true) == ProcessClockData(old(View()), n, data)
    {
      hide Read, Safe, ReadWord64;
      ghost var before := View();
      var signal := signals[n];
      SetAnchor(signal, Members(signal.tableId), ReadWord64(data, 0), None);
      var refused;
      refused, events := signal.ProcessMeasuredData(data, null);
      assert View().signals == before.signals[n := signal.View()];
    }

    /** Otherwise it is a value index followed by a time stamp. */
    method ProcessIndexedTime(n: nat, data: seq<Byte>)
      requires Valid() && n in signals && signals[n].rule != RuleExplicit
      modifies signals[n]
      ensures Valid()
      ensures Result(View(), [], true) == ProcessClockData(old(View()), n, data)
    {
      hide Read, ReadWord64;
      ghost var before := View();
      var signal := signals[n];
      SetAnchor(signal, Members(signal.tableId), ReadWord64(data, 8), Some(ReadWord64(data, 0)));
      assert View().signals == before.signals[n := signal.View()];
    }

    method ProcessMeasuredData(n: nat, data: seq<Byte>) returns (accepted: bool, events: seq<Event>)
      requires Valid()
      modifies signals.Values
      ensures Valid()
      ensures Result(View(), events, accepted) == ProcessData(old(View()), n, data)
    {
      hide Read, Safe, Container.ProcessClockData;
      ghost var before := View();
      accepted, events := false, [];
      if n !in signals {
        return;
      }
      var signal := signals[n];
      if signal.isTime {
        if signal.rule == RuleExplicit {
          events := ProcessExplicitTime(n, data);
        } else {
          ProcessIndexedTime(n, data);
        }
        return true, events;
      }
      if signal.tableId !in tables {
        return true, [];
      }
      var time := tables[signal.tableId].time;
      if time == 0 {
        return;
      }
      var clock := if time in signals then signals[time] else null;
      var refused;
      refused, events := signal.ProcessMeasuredData(data, clock);
      accepted := !refused;
      assert View().signals == before.signals[n := signal.View()];
    }
  }
}
