/** Measured data of one signal does not interfere with another signal's callbacks. */
module Interference {
  import opened Words
  import opened Messages
  import opened Signals
  import opened Container
  import Tables

  /** A stretch of data packets; refused packets do not stop it. */
  predicate AllData(ps: seq<Tables.Input>) {
    forall p :: p in ps ==> p.Data?
  }

  /** The callbacks for signal v, in order. */
  function For(v: nat, events: seq<Event>): seq<Event> {
    if events == [] then [] else
      (if (events[0].Raw? || events[0].Values?) && events[0].number == v then [events[0]] else []) + For(v, events[1..])
  }

  /** The time signal that signal v's data is stamped with; 0 when there is none. */
  function ClockOf(c: State, v: nat): nat {
    if v in c.signals && c.signals[v].tableId in c.tables then c.tables[c.signals[v].tableId].time else 0
  }

  predicate Concerns(c: State, v: nat, n: nat) {
    n == v || (n == ClockOf(c, v) && n != 0)
  }

  /** The packets of v and of its time signal, in order. */
  function Relevant(c: State, v: nat, ps: seq<Tables.Input>): seq<Tables.Input> {
    if ps == [] then [] else
      (if Concerns(c, v, ps[0].number) then [ps[0]] else []) + Relevant(c, v, ps[1..])
  }

  /** What the index guarantees about the clock of v. */
  predicate ClockIsTime(c: State, v: nat) {
    ClockOf(c, v) != 0 && ClockOf(c, v) in c.signals ==> c.signals[ClockOf(c, v)].isTime
  }

  /** Two states that v cannot tell apart. */
  predicate Alike(c: State, c': State, v: nat) {
    && c.tables == c'.tables
    && c.signals.Keys == c'.signals.Keys
    && (v in c.signals ==> c.signals[v] == c'.signals[v])
    && (ClockOf(c, v) != 0 && ClockOf(c, v) in c.signals ==>
          c.signals[ClockOf(c, v)] == c'.signals[ClockOf(c, v)])
  }

  lemma {:induction false} ForConcat(v: nat, a: seq<Event>, b: seq<Event>)
    ensures For(v, a + b) == For(v, a) + For(v, b)
  {
    if a == [] {
      assert a + b == b;
    } else {
      assert (a + b)[1..] == a[1..] + b;
      ForConcat(v, a[1..], b);
    }
  }

  lemma {:induction false} ForOthers(v: nat, events: seq<Event>)
    requires forall e :: e in events ==> (e.Raw? || e.Values?) && e.number != v
    ensures For(v, events) == []
  {
    if events != [] {
      ForOthers(v, events[1..]);
    }
  }

  /** A packet that does not concern v neither reaches v's callbacks nor changes what v sees. */
  lemma StrangerStep(c: State, v: nat, n: nat, data: seq<Byte>)
    requires !Concerns(c, v, n)
    ensures For(v, ProcessData(c, n, data).events) == []
    ensures Alike(c, ProcessData(c, n, data).state, v)
  {
    DataFrame(c, n, data);
    ForOthers(v, ProcessData(c, n, data).events);
  }

  /** A packet that concerns v is processed alike in alike states. */
  lemma ConcernedStep(c: State, c': State, v: nat, n: nat, data: seq<Byte>)
    requires Alike(c, c', v) && ClockIsTime(c, v) && Concerns(c, v, n)
    ensures ProcessData(c, n, data).events == ProcessData(c', n, data).events
    ensures Alike(ProcessData(c, n, data).state, ProcessData(c', n, data).state, v)
  {
    hide Read, ReadWord64;
    DataFrame(c, n, data);
    DataFrame(c', n, data);
  }

  /** ClockOf and ClockIsTime do not change while data is processed. */
  lemma ClockStable(c: State, v: nat, n: nat, data: seq<Byte>)
    ensures var c' := ProcessData(c, n, data).state;
            && ClockOf(c', v) == ClockOf(c, v)
            && (ClockIsTime(c, v) ==> ClockIsTime(c', v))
            && c'.tables == c.tables && c'.signals.Keys == c.signals.Keys
  {
    DataFrame(c, n, data);
  }

  lemma {:induction false} RelevantStable(c: State, c': State, v: nat, ps: seq<Tables.Input>)
    requires ClockOf(c, v) == ClockOf(c', v)
    ensures Relevant(c, v, ps) == Relevant(c', v, ps)
  {
    if ps != [] {
      RelevantStable(c, c', v, ps[1..]);
    }
  }

  lemma AlikeClock(c: State, c': State, v: nat)
    requires Alike(c, c', v)
    ensures ClockOf(c, v) == ClockOf(c', v)
  {
  }

  /** Over any stretch of data packets the callbacks for v are those of the relevant packets alone,
      and the key set and the table index stay as they are. */
  lemma {:induction false} OnlyRelevantMatters(c: State, c': State, v: nat, ps: seq<Tables.Input>)
    requires Alike(c, c', v) && ClockIsTime(c, v) && AllData(ps)
    ensures For(v, Tables.ProcessAll(c, ps).events) == For(v, Tables.ProcessAll(c', Relevant(c, v, ps)).events)
    ensures Alike(Tables.ProcessAll(c, ps).state, Tables.ProcessAll(c', Relevant(c, v, ps)).state, v)
    ensures Tables.ProcessAll(c, ps).state.tables == c.tables
    ensures Tables.ProcessAll(c, ps).state.signals.Keys == c.signals.Keys
    decreases |ps|
  {
    if ps != [] {
      var p, rest := ps[0], ps[1..];
      var r := ProcessData(c, p.number, p.bytes);
      ClockStable(c, v, p.number, p.bytes);
      RelevantStable(c, r.state, v, rest);
      ForConcat(v, r.events, Tables.ProcessAll(r.state, rest).events);
      var kept := Relevant(c, v, rest);
      if Concerns(c, v, p.number) {
        var r' := ProcessData(c', p.number, p.bytes);
        ConcernedStep(c, c', v, p.number, p.bytes);
        OnlyRelevantMatters(r.state, r'.state, v, rest);
        assert ([p] + kept)[1..] == kept;
        ForConcat(v, r'.events, Tables.ProcessAll(r'.state, kept).events);
      } else {
        StrangerStep(c, v, p.number, p.bytes);
        AlikeThrough(c, r.state, c', v);
        OnlyRelevantMatters(r.state, c', v, rest);
        assert [] + kept == kept;
      }
    }
  }

  lemma AlikeThrough(c: State, next: State, c': State, v: nat)
    requires Alike(c, next, v) && Alike(c, c', v)
    ensures Alike(next, c', v)
  {
    AlikeClock(c, next, v);
  }

  /** Packets of other signals may be added, dropped or reordered freely. */
  lemma OthersMayBeReordered(c: State, described: set<nat>, v: nat, ps: seq<Tables.Input>, qs: seq<Tables.Input>)
    requires Tables.Exact(c, described) && AllData(ps) && AllData(qs)
    requires Relevant(c, v, ps) == Relevant(c, v, qs)
    ensures For(v, Tables.ProcessAll(c, ps).events) == For(v, Tables.ProcessAll(c, qs).events)
  {
    Tables.ExactIndexed(c, described);
    var t := ClockOf(c, v);
    if t != 0 {
      assert Tables.Sound(c, described, c.signals[v].tableId);
    }
    OnlyRelevantMatters(c, c, v, ps);
    OnlyRelevantMatters(c, c, v, qs);
  }
}
