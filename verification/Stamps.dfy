/** The consumer alone: at which times data is called back over any stretch of data packets, for
    explicit and for linear time signals, from the packets of the time signal themselves. */
module Stamps {
  import opened Words
  import opened Messages
  import opened Signals
  import opened Container
  import Tables

  /** Value signal v has time signal k: the index files both under one table. */
  predicate Wired(c: State, v: nat, k: nat) {
    && v in c.signals && !c.signals[v].isTime && c.signals[v].tableId in c.tables
    && k != 0 && k in c.signals && c.signals[k].isTime && c.signals[k].tableId == c.signals[v].tableId
    && c.tables[c.signals[v].tableId].time == k && v in c.tables[c.signals[v].tableId].data
  }

  /** With an exact index these are the described value signals and the only time signals of their
      tables. */
  lemma WiredIff(c: State, described: set<nat>, v: nat, k: nat)
    requires Tables.Exact(c, described) && v in described && !c.signals[v].isTime && k != 0
    ensures Wired(c, v, k) <==> k in described && c.signals[k].isTime && c.signals[k].tableId == c.signals[v].tableId
  {
    Tables.ExactIndexed(c, described);
    assert Tables.Filed(c, v);
    assert Tables.Sound(c, described, c.signals[v].tableId);
    if k in described {
      assert Tables.Filed(c, k);
    }
  }

  // ------------------------------------------------------------------ time packets

  /** The number in eight bytes at an offset. */
  function Number(b: seq<Byte>, at: nat): (x: Word64)
    requires at + 8 <= |b|
    ensures x == FromLE(b[at..at + 8])
  {
    FromLEBound(b[at..at + 8]);
    Pow256Values();
    FromLE(b[at..at + 8])
  }

  lemma WordAt(b: seq<Byte>, at: nat)
    requires at + 8 <= |b|
    ensures ReadWord64(b, at) == Number(b, at)
  {
    assert Clip(b, at, 8) == b[at..at + 8];
  }

  /** All packets are data, and those of time signal k have at least the given number of bytes. */
  predicate Complete(ps: seq<Tables.Input>, k: nat, size: nat) {
    forall p :: p in ps ==> p.Data? && (p.number == k ==> |p.bytes| >= size)
  }

  /** The time in the last packet of an explicit time signal, `time` when there is none. */
  function LastTime(time: Word64, k: nat, ps: seq<Tables.Input>): Word64
    requires Complete(ps, k, 8)
    decreases |ps|
  {
    if ps == [] then time else LastTime(if ps[0].number == k then Number(ps[0].bytes, 0) else time, k, ps[1..])
  }

  datatype Anchor = Anchor(index: Word64, time: Word64)

  /** The index and the time in the last packet of a linear time signal. */
  function LastAnchor(a: Anchor, k: nat, ps: seq<Tables.Input>): Anchor
    requires Complete(ps, k, 16)
    decreases |ps|
  {
    if ps == [] then a else
      LastAnchor(if ps[0].number == k then Anchor(Number(ps[0].bytes, 0), Number(ps[0].bytes, 8)) else a, k, ps[1..])
  }

  /** The values in all packets of signal v. */
  function ValuesIn(ps: seq<Tables.Input>, v: nat, size: nat): nat
    requires size > 0 && forall p :: p in ps ==> p.Data?
    decreases |ps|
  {
    if ps == [] then 0 else
      (if ps[0].number == v then Quotient(|ps[0].bytes|, size) else 0) + ValuesIn(ps[1..], v, size)
  }

  // ------------------------------------------------------------------ explicit time

  /** A packet of an explicit time signal sets its time, if the table has a value signal, and is
      itself called back without a time. */
  lemma ExplicitTimePacket(c: State, n: nat, t: Word64)
    requires n in c.signals && c.signals[n].isTime && c.signals[n].rule == RuleExplicit
    ensures var r := ProcessData(c, n, ToLE(t, 8));
            && n in r.state.signals
            && r.state.signals[n] == c.signals[n].(time := if HasValueSignal(c, c.signals[n].tableId) then t
                                                            else c.signals[n].time)
            && (c.signals[n].valueSize == 8 ==>
                 r.events == [Raw(n, 0, ToLE(t, 8)), Values(n, 0, ToLE(t, 8), 1, c.signals[n].delta)])
  {
    Pow256Values();
    LERoundTrip(t, 8);
    assert ToLE(t, 8)[0..8] == ToLE(t, 8);
    WordAt(ToLE(t, 8), 0);
    QuotientOfProduct(1, 8);
  }

  lemma ExplicitStep(c: State, v: nat, k: nat, p: Tables.Input)
    requires Wired(c, v, k) && c.signals[k].rule == RuleExplicit && p.Data? && (p.number == k ==> |p.bytes| >= 8)
    ensures var c' := ProcessData(c, p.number, p.bytes).state;
            && Wired(c', v, k) && c'.signals[v] == c.signals[v]
            && c'.signals[k] == if p.number == k then c.signals[k].(time := Number(p.bytes, 0)) else c.signals[k]
  {
    hide ReadWord64, Quotient, EvenMultiple;
    DataFrame(c, p.number, p.bytes);
    if p.number == k {
      WordAt(p.bytes, 0);
    }
  }

  lemma {:induction false} ExplicitRun(c: State, v: nat, k: nat, ps: seq<Tables.Input>)
    requires Wired(c, v, k) && c.signals[k].rule == RuleExplicit && Complete(ps, k, 8)
    ensures var c' := Tables.ProcessAll(c, ps).state;
            && Wired(c', v, k) && c'.signals[v] == c.signals[v]
            && c'.signals[k] == c.signals[k].(time := LastTime(c.signals[k].time, k, ps))
    decreases |ps|
  {
    hide ProcessData, Number, Wired;
    if ps != [] {
      ExplicitStep(c, v, k, ps[0]);
      ExplicitRun(ProcessData(c, ps[0].number, ps[0].bytes).state, v, k, ps[1..]);
    }
  }

  lemma WiredData(c: State, v: nat, k: nat, data: seq<Byte>)
    requires Wired(c, v, k)
    ensures ProcessData(c, v, data).events == Read(c.signals[v], v, data, Some(c.signals[k])).events
  {
    hide Read;
  }

  /** After any stretch of data a packet of a value signal with an explicit time signal is called
      back if and only if it holds whole values, raw and as values, at the time in the last packet
      of the time signal. */
  lemma ExplicitDelivery(c: State, described: set<nat>, v: nat, k: nat, ps: seq<Tables.Input>, data: seq<Byte>)
    requires Tables.Exact(c, described) && v in described && !c.signals[v].isTime && c.signals[v].valueSize > 0
    requires k in described && k != 0 && c.signals[k].isTime && c.signals[k].tableId == c.signals[v].tableId
    requires c.signals[k].rule == RuleExplicit && Complete(ps, k, 8)
    ensures var t, size := LastTime(c.signals[k].time, k, ps), c.signals[v].valueSize;
            ProcessData(Tables.ProcessAll(c, ps).state, v, data).events
            == if |data| % size != 0 then []
               else [Raw(v, t, data), Values(v, t, data, |data| / size, c.signals[v].delta)]
  {
    hide ProcessData, Read, LastTime, Tables.ProcessAll, Wired;
    WiredIff(c, described, v, k);
    ExplicitRun(c, v, k, ps);
    var c' := Tables.ProcessAll(c, ps).state;
    InRun(c', v, k);
    WiredData(c', v, k, data);
    ExplicitDomain(c'.signals[v], v, data, Some(c'.signals[k]));
  }

  lemma InRun(c: State, v: nat, k: nat)
    requires Wired(c, v, k)
    ensures v in c.signals && k in c.signals
  {
  }

  // ------------------------------------------------------------------ linear time

  /** A packet of any other time signal sets its index and its time, if the table has a value signal,
      and is not called back. */
  lemma LinearTimePacket(c: State, n: nat, index: Word64, t: Word64)
    requires n in c.signals && c.signals[n].isTime && c.signals[n].rule != RuleExplicit
    ensures var r := ProcessData(c, n, ToLE(index, 8) + ToLE(t, 8));
            && r.events == [] && n in r.state.signals
            && r.state.signals[n] == if HasValueSignal(c, c.signals[n].tableId)
                                     then c.signals[n].(time := t, valueIndex := index) else c.signals[n]
  {
    var b := ToLE(index, 8) + ToLE(t, 8);
    Pow256Values();
    LERoundTrip(index, 8);
    LERoundTrip(t, 8);
    assert b[0..8] == ToLE(index, 8) && b[8..16] == ToLE(t, 8);
    WordAt(b, 0);
    WordAt(b, 8);
  }

  lemma LinearClockStep(c: State, v: nat, k: nat, p: Tables.Input)
    requires Wired(c, v, k) && c.signals[k].rule == RuleLinear && p.Data? && (p.number == k ==> |p.bytes| >= 16)
    ensures var c' := ProcessData(c, p.number, p.bytes).state;
            && Wired(c', v, k)
            && c'.signals[k] == if p.number == k
                                then c.signals[k].(valueIndex := Number(p.bytes, 0), time := Number(p.bytes, 8))
                                else c.signals[k]
  {
    hide ReadWord64, Read;
    DataFrame(c, p.number, p.bytes);
    if p.number == k {
      WordAt(p.bytes, 0);
      WordAt(p.bytes, 8);
    }
  }

  lemma LinearValueStep(c: State, v: nat, k: nat, p: Tables.Input)
    requires Wired(c, v, k) && c.signals[k].rule == RuleLinear && p.Data?
    ensures var s, c' := c.signals[v], ProcessData(c, p.number, p.bytes).state;
            v in c'.signals && c'.signals[v] == if p.number != v then s else
              s.(delta := c.signals[k].delta,
                 valueIndex := if s.rule != RuleExplicit then s.valueIndex
                               else Wrap(s.valueIndex + Quotient(|p.bytes|, s.valueSize)))
  {
    hide ReadWord64, Quotient;
    DataFrame(c, p.number, p.bytes);
  }

  /** What a stretch of data leaves: the time signal has the last anchor, and the value index has
      moved by the values in the packets of the signal. */
  lemma {:induction false} LinearRun(c: State, v: nat, k: nat, ps: seq<Tables.Input>)
    requires Wired(c, v, k) && c.signals[k].rule == RuleLinear && Complete(ps, k, 16) && c.signals[v].valueSize > 0
    ensures var c', s, clock := Tables.ProcessAll(c, ps).state, c.signals[v], c.signals[k];
            var a := LastAnchor(Anchor(clock.valueIndex, clock.time), k, ps);
            && Wired(c', v, k)
            && c'.signals[k] == clock.(valueIndex := a.index, time := a.time)
            && c'.signals[v].rule == s.rule && c'.signals[v].valueSize == s.valueSize
            && c'.signals[v].valueIndex == if s.rule != RuleExplicit then s.valueIndex
                                           else Wrap(s.valueIndex + ValuesIn(ps, v, s.valueSize))
    decreases |ps|
  {
    hide ProcessData, Number, Wired, Quotient, Wrap;
    InRun(c, v, k);
    var s := c.signals[v];
    if ps == [] {
      WordItself(s.valueIndex);
    } else {
      var c1 := ProcessData(c, ps[0].number, ps[0].bytes).state;
      LinearClockStep(c, v, k, ps[0]);
      LinearValueStep(c, v, k, ps[0]);
      LinearRun(c1, v, k, ps[1..]);
      if ps[0].number == v {
        WrapAdd(s.valueIndex + Quotient(|ps[0].bytes|, s.valueSize), ValuesIn(ps[1..], v, s.valueSize));
      }
    }
  }

  lemma StampValue(clock: SignalState, index: int)
    ensures TimeStamp(clock, Wrap(index)) == Wrap(clock.time + (index - clock.valueIndex) * clock.delta)
  {
    hide Wrap;
    var back: int := clock.valueIndex;
    WrapAdd(index, -back);
    WrapMul(index - clock.valueIndex, clock.delta);
    WrapAdd((index - clock.valueIndex) * clock.delta, clock.time);
  }

  /** The callbacks for a packet under a linear time signal with the given anchor and delta: explicit
      values from the given index on at anchor time + (index - anchor index) * delta modulo 2^64, a
      constant at the time of the anchor. */
  function Stamped(s: SignalState, v: nat, index: int, a: Anchor, delta: Word64, data: seq<Byte>): seq<Event> {
    match s.rule
    case RuleExplicit =>
      var t := Wrap(a.time + (index - a.index) * delta);
      [Raw(v, t, data), Values(v, t, data, Quotient(|data|, s.valueSize), delta)]
    case RuleConstant =>
      [Raw(v, a.time, data), Values(v, a.time, data, Quotient(|data|, IndexedSize(s)), delta)]
    case _ => []
  }

  lemma ReadStamped(s: SignalState, v: nat, index: int, clock: SignalState, data: seq<Byte>)
    requires clock.rule == RuleLinear && (s.rule == RuleExplicit ==> s.valueIndex == Wrap(index))
    ensures Read(s, v, data, Some(clock)).events
         == Stamped(s, v, index, Anchor(clock.valueIndex, clock.time), clock.delta, data)
  {
    hide Quotient, TimeStamp, Wrap;
    StampValue(clock, index);
  }

  /** After any stretch of data a packet of a value signal with a linear time signal is called back
      with the last anchor received and an index advanced by all values before. */
  lemma LinearDelivery(c: State, described: set<nat>, v: nat, k: nat, ps: seq<Tables.Input>, data: seq<Byte>)
    requires Tables.Exact(c, described) && v in described && !c.signals[v].isTime && c.signals[v].valueSize > 0
    requires k in described && k != 0 && c.signals[k].isTime && c.signals[k].tableId == c.signals[v].tableId
    requires c.signals[k].rule == RuleLinear && Complete(ps, k, 16)
    ensures var s, clock := c.signals[v], c.signals[k];
            ProcessData(Tables.ProcessAll(c, ps).state, v, data).events
            == Stamped(s, v, s.valueIndex + ValuesIn(ps, v, s.valueSize),
                       LastAnchor(Anchor(clock.valueIndex, clock.time), k, ps), clock.delta, data)
  {
    hide ProcessData, LastAnchor, Tables.ProcessAll, Wired, Quotient, Wrap, Read, ValuesIn;
    var s := c.signals[v];
    WiredIff(c, described, v, k);
    LinearRun(c, v, k, ps);
    var c' := Tables.ProcessAll(c, ps).state;
    InRun(c', v, k);
    WiredData(c', v, k, data);
    ReadStamped(c'.signals[v], v, s.valueIndex + ValuesIn(ps, v, s.valueSize), c'.signals[k], data);
  }

  /** Data of a value signal whose table has no time signal is not called back. */
  lemma NoTimeNoData(c: State, described: set<nat>, v: nat, data: seq<Byte>)
    requires Tables.Exact(c, described) && v in described && !c.signals[v].isTime
    requires forall k :: k in described && c.signals[k].isTime ==> c.signals[k].tableId != c.signals[v].tableId
    ensures ProcessData(c, v, data) == Result(c, [], false)
  {
    Tables.ExactIndexed(c, described);
    assert Tables.Filed(c, v);
    assert Tables.Sound(c, described, c.signals[v].tableId);
  }
}
