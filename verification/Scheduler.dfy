/** The signal generator's sample scheduler. Times are nanoseconds. The sample values themselves
    come from floating-point functions and are not modelled; what matters here is how many samples
    are produced and when. */
module Scheduler {
  import opened Words

  /** Adding a duration to a time point keeps microseconds only, unless the build has time points
      of nanosecond resolution. */
  function Kept(nanoseconds: nat, exact: bool): nat {
    if exact then nanoseconds else nanoseconds / 1000 * 1000
  }

  /** `last` is the time up to which samples have been produced; it advances by `step` with each
      sample. `emitted` is how many samples there were. */
  datatype Schedule = Schedule(period: nat, step: nat, last: int, index: Word64, emitted: nat)

  /** The schedule of a signal on a build of the given kind. */
  function NewSchedule(period: nat, exact: bool, start: int, index: Word64): Schedule {
    Schedule(period, Kept(period, exact), start, index, 0)
  }

  /** Whole sample periods between the last processing and now, as an unsigned int. */
  function SamplesToProcess(s: Schedule, now: int): nat
    requires s.period > 0 && now >= s.last
  {
    Quotient(now - s.last, s.period) % 0x1_0000_0000
  }

  function Advance(s: Schedule, k: nat): Schedule {
    s.(last := s.last + k * s.step, index := Wrap(s.index + k), emitted := s.emitted + k)
  }

  function ProcessAt(s: Schedule, now: int): Schedule
    requires s.period > 0
  {
    if now >= s.last then Advance(s, SamplesToProcess(s, now)) else s
  }

  /** Calls at arbitrary times. */
  function Run(s: Schedule, times: seq<int>): (r: Schedule)
    requires s.period > 0
    ensures r.period == s.period && r.step == s.step
    decreases |times|
  {
    if times == [] then s else Run(ProcessAt(s, times[0]), times[1..])
  }

  function Max(a: int, b: int): int {
    if a < b then b else a
  }

  /** The latest of the given times, at least `latest`. */
  function Latest(latest: int, times: seq<int>): int
    decreases |times|
  {
    if times == [] then latest else Latest(Max(latest, times[0]), times[1..])
  }

  /** No drift: the samples produced lie exactly one period apart from the start on, and less than
      one period is left over. */
  predicate OnTime(s: Schedule, start: int, latest: int) {
    s.last == start + s.emitted * s.period && 0 <= latest - s.last < s.period
  }

  /** The number of samples fits an unsigned int. */
  predicate Fits(s: Schedule, now: int)
    requires s.period > 0
  {
    now >= s.last ==> Quotient(now - s.last, s.period) < 0x1_0000_0000
  }

  /** The condition, readable before the call: the number of samples fits, and if a sample is due
      the step is the period. */
  predicate Punctual(s: Schedule, now: int)
    requires s.period > 0
  {
    Fits(s, now) && (now >= s.last && Quotient(now - s.last, s.period) > 0 ==> s.step == s.period)
  }

  lemma AdvanceArithmetic(s: Schedule, start: int, k: nat)
    requires s.last == start + s.emitted * s.period
    ensures Advance(s, k).last == start + Advance(s, k).emitted * s.period <==> k == 0 || s.step == s.period
  {
    assert (s.emitted + k) * s.period == s.emitted * s.period + k * s.period;
    if k != 0 && s.step < s.period {
      DifferentProducts(k, s.step, s.period);
    } else if k != 0 && s.period < s.step {
      DifferentProducts(k, s.period, s.step);
    }
  }

  lemma DifferentProducts(k: nat, a: nat, b: nat)
    requires k != 0 && a < b
    ensures k * a < k * b
  {
    assert k * b == k * a + k * (b - a);
  }

  /** A call keeps the schedule on time if and only if it is punctual. */
  lemma OnTimeIff(s: Schedule, start: int, latest: int, now: int)
    requires s.period > 0 && OnTime(s, start, latest)
    ensures OnTime(ProcessAt(s, now), start, Max(latest, now)) <==> Punctual(s, now)
  {
    hide Quotient;
    if now >= s.last {
      var k := SamplesToProcess(s, now);
      AdvanceArithmetic(s, start, k);
      if now <= latest {
        SmallGap(now - s.last, s.period);
      } else {
        Leftover(now - s.last, s.period);
      }
    }
  }

  /** What is left of a gap after the truncated number of periods. */
  lemma Leftover(gap: nat, p: nat)
    requires p > 0
    ensures var k := Quotient(gap, p) % 0x1_0000_0000;
            0 <= gap - k * p < p <==> Quotient(gap, p) < 0x1_0000_0000
  {
    QuotientBounds(gap, p);
    LeftoverOf(gap, p, Quotient(gap, p), Quotient(gap, p) % 0x1_0000_0000);
  }

  lemma LeftoverOf(gap: nat, p: nat, q: nat, k: nat)
    requires q * p <= gap < q * p + p && k <= q
    ensures 0 <= gap - k * p < p <==> k == q
  {
    if k < q {
      MulMonotone(k + 1, q, p);
      assert (k + 1) * p == k * p + p;
    }
  }

  lemma SmallGap(d: nat, p: nat)
    requires d < p
    ensures Quotient(d, p) == 0
  {
  }

  ghost predicate OnTimeThroughout(s: Schedule, start: int, latest: int, times: seq<int>)
    requires s.period > 0
    decreases |times|
  {
    OnTime(s, start, latest) &&
    (times != [] ==> OnTimeThroughout(ProcessAt(s, times[0]), start, Max(latest, times[0]), times[1..]))
  }

  ghost predicate PunctualThroughout(s: Schedule, times: seq<int>)
    requires s.period > 0
    decreases |times|
  {
    times != [] ==> Punctual(s, times[0]) && PunctualThroughout(ProcessAt(s, times[0]), times[1..])
  }

  ghost predicate FitsThroughout(s: Schedule, times: seq<int>)
    requires s.period > 0
    decreases |times|
  {
    times != [] ==> Fits(s, times[0]) && FitsThroughout(ProcessAt(s, times[0]), times[1..])
  }

  /** Over any sequence of calls at any times the schedule is on time after every call if and only
      if every call is punctual. */
  lemma {:induction false} OnTimeRunIff(s: Schedule, start: int, latest: int, times: seq<int>)
    requires s.period > 0 && OnTime(s, start, latest)
    ensures OnTimeThroughout(s, start, latest, times) <==> PunctualThroughout(s, times)
    decreases |times|
  {
    if times != [] {
      OnTimeIff(s, start, latest, times[0]);
      if Punctual(s, times[0]) {
        OnTimeRunIff(ProcessAt(s, times[0]), start, Max(latest, times[0]), times[1..]);
      }
    }
  }

  lemma {:induction false} OnTimeAtEnd(s: Schedule, start: int, latest: int, times: seq<int>)
    requires s.period > 0 && OnTimeThroughout(s, start, latest, times)
    ensures OnTime(Run(s, times), start, Latest(latest, times))
    decreases |times|
  {
    if times != [] {
      OnTimeAtEnd(ProcessAt(s, times[0]), start, Max(latest, times[0]), times[1..]);
    }
  }

  lemma IndexStep(s: Schedule, now: int)
    requires s.period > 0
    ensures ProcessAt(s, now).index == Wrap(s.index + (ProcessAt(s, now).emitted - s.emitted))
    ensures ProcessAt(s, now).emitted >= s.emitted
    ensures ProcessAt(s, now).period == s.period && ProcessAt(s, now).step == s.step
  {
  }

  /** The value index counts the samples emitted. */
  lemma {:induction false} IndexAtEnd(s: Schedule, times: seq<int>)
    requires s.period > 0
    ensures Run(s, times).index == Wrap(s.index + (Run(s, times).emitted - s.emitted))
    decreases |times|
  {
    hide ProcessAt;
    if times != [] {
      IndexStep(s, times[0]);
      var r := ProcessAt(s, times[0]);
      IndexAtEnd(r, times[1..]);
      WrapAdd(s.index + (r.emitted - s.emitted), Run(s, times).emitted - r.emitted);
    }
  }

  lemma {:induction false} FitsArePunctual(s: Schedule, times: seq<int>)
    requires s.period > 0 && s.step == s.period && FitsThroughout(s, times)
    ensures PunctualThroughout(s, times)
    decreases |times|
  {
    if times != [] {
      FitsArePunctual(ProcessAt(s, times[0]), times[1..]);
    }
  }

  /** The count is exact: from a fresh start, after any calls whose counts fit, the samples emitted
      are floor((latest time - start) / period), and the value index advanced by that count. */
  lemma NoDrift(period: nat, exact: bool, start: int, index: Word64, times: seq<int>)
    requires period > 0 && Kept(period, exact) == period
    requires FitsThroughout(NewSchedule(period, exact, start, index), times)
    ensures var r := Run(NewSchedule(period, exact, start, index), times);
            && r.emitted == (Latest(start, times) - start) / period
            && 0 <= Latest(start, times) - r.last < period
            && r.index == Wrap(index + r.emitted)
  {
    var s := NewSchedule(period, exact, start, index);
    FitsArePunctual(s, times);
    OnTimeRunIff(s, start, start, times);
    OnTimeAtEnd(s, start, start, times);
    IndexAtEnd(s, times);
    DivUnique(Latest(start, times) - start, period, Run(s, times).emitted);
  }

  /** Every run whose counts fit is on time after every call if and only if the build has time
      points of nanosecond resolution or the period is a whole number of microseconds. */
  lemma NoDriftBuildIff(period: nat, exact: bool, start: int, index: Word64)
    requires period > 0
    ensures var s := NewSchedule(period, exact, start, index);
            (forall times: seq<int> | FitsThroughout(s, times) :: OnTimeThroughout(s, start, start, times))
            <==> exact || period % 1000 == 0
  {
    var s := NewSchedule(period, exact, start, index);
    if exact || period % 1000 == 0 {
      forall times: seq<int> | FitsThroughout(s, times) ensures OnTimeThroughout(s, start, start, times) {
        FitsArePunctual(s, times);
        OnTimeRunIff(s, start, start, times);
      }
    } else {
      FirstSampleDrifts(s, start);
    }
  }

  lemma FirstSampleDrifts(s: Schedule, start: int)
    requires s.period > 0 && s.last == start && s.emitted == 0 && s.step != s.period
    ensures FitsThroughout(s, [start + s.period]) && !OnTimeThroughout(s, start, start, [start + s.period])
  {
    var times := [start + s.period];
    assert Quotient(s.period, s.period) == 1;
    assert times[1..] == [];
    OnTimeRunIff(s, start, start, times);
  }

  lemma DriftedCalls(s: Schedule, r: Schedule)
    requires s == Schedule(1500, 1000, 0, 0, 0) && r == ProcessAt(s, 4500)
    ensures r.period == 1500 && ProcessAt(r, 4500).period == 1500 && ProcessAt(r, 4500).emitted == 4
  {
    hide ProcessAt, Wrap;
    Due(s, 4500, 3);
    Due(r, 4500, 1);
  }

  /** A call exactly k periods after the last one. */
  lemma Due(s: Schedule, now: int, k: nat)
    requires s.period > 0 && now == s.last + k * s.period && k < 0x1_0000_0000
    ensures ProcessAt(s, now) == Advance(s, k)
  {
    hide Quotient, Advance;
    QuotientOfProduct(k, s.period);
  }

  /** With a period of 1500 ns that is kept as 1000 ns, calls at 4500 ns and again at 4500 ns
      produce four samples where three are due. */
  lemma DriftedRun()
    ensures Run(NewSchedule(1500, false, 0, 0), [4500, 4500]).emitted == 4
    ensures (Latest(0, [4500, 4500]) - 0) / 1500 == 3
  {
    hide Quotient, ProcessAt;
    var s := NewSchedule(1500, false, 0, 0);
    var times := [4500, 4500];
    var r := ProcessAt(s, 4500);
    DriftedCalls(s, r);
    var q := ProcessAt(r, 4500);
    assert times[1..] == [4500] && [4500][1..] == [];
    assert Run(r, [4500]) == Run(q, []) == q;
    assert Latest(4500, [4500]) == Latest(4500, []);
  }

  /** With a period of 1 ns and a gap of 2^32 ns the number of samples wraps to zero: nothing is
      produced, and the schedule is not on time any more. */
  lemma WrappedCount(start: int, index: Word64)
    ensures var s := NewSchedule(1, true, start, index);
            var now := start + 0x1_0000_0000;
            OnTime(s, start, start) && ProcessAt(s, now) == s && !OnTime(ProcessAt(s, now), start, now)
  {
    QuotientIsDivision(0x1_0000_0000, 1);
  }

  // ------------------------------------------------------------------ regular ticks

  /** The states after k calls at start, start + step, start + 2 * step and so on. */
  function Ticked(s: Schedule, start: int, step: nat, k: nat): (r: Schedule)
    requires s.period > 0
    ensures r.period == s.period && r.step == s.step
    decreases k
  {
    if k == 0 then s else ProcessAt(Ticked(s, start, step, k - 1), start + (k - 1) * step)
  }

  /** With a step of less than 2^32 - 1 sample periods every tick is on time. */
  lemma {:induction false} TickedOnTime(s: Schedule, start: int, step: nat, k: nat)
    requires s.period > 0 && s.step == s.period && s.last == start && s.emitted == 0 && k >= 1
    requires Quotient(step, s.period) < 0xFFFF_FFFF
    ensures OnTime(Ticked(s, start, step, k), start, start + (k - 1) * step)
    decreases k
  {
    if k == 1 {
      OnTimeIff(s, start, start, start);
      SmallGap(0, s.period);
    } else {
      var r := Ticked(s, start, step, k - 1);
      TickedOnTime(s, start, step, k - 1);
      var before := start + (k - 2) * step;
      assert start + (k - 1) * step == before + step;
      GapBound(before - r.last, step, s.period);
      OnTimeIff(r, start, before, before + step);
    }
  }

  lemma GapBound(d: nat, step: nat, p: nat)
    requires d < p
    ensures Quotient(d + step, p) <= Quotient(step, p) + 1
  {
    QuotientBounds(d + step, p);
    QuotientBounds(step, p);
    var a, b := Quotient(d + step, p), Quotient(step, p);
    assert (b + 2) * p == b * p + 2 * p;
    if a >= b + 2 {
      MulMonotone(b + 2, a, p);
    }
  }

  /** After the given number of rounds a signal that started with the generator has produced
      floor((last round's time - start) / period) samples. */
  lemma TickedCount(period: nat, exact: bool, start: int, index: Word64, step: nat, rounds: nat)
    requires period > 0 && Kept(period, exact) == period && rounds >= 1 && Quotient(step, period) < 0xFFFF_FFFF
    ensures Ticked(NewSchedule(period, exact, start, index), start, step, rounds).emitted
         == (rounds - 1) * step / period
  {
    var s := NewSchedule(period, exact, start, index);
    TickedOnTime(s, start, step, rounds);
    DivUnique((rounds - 1) * step, period, Ticked(s, start, step, rounds).emitted);
  }

  // ------------------------------------------------------------------ the generator

  class GeneratedSignal {
    const samplePeriod: nat
    const exact: bool
    var lastProcessTime: int
    var valueIndex: Word64
    var samplesWritten: nat

    function View(): Schedule
      reads this
    {
      Schedule(samplePeriod, Kept(samplePeriod, exact), lastProcessTime, valueIndex, samplesWritten)
    }

    constructor (samplePeriod: nat, exact: bool, currentTime: int, valueIndex: Word64)
      ensures View() == NewSchedule(samplePeriod, exact, currentTime, valueIndex)
    {
      this.samplePeriod, this.exact := samplePeriod, exact;
      this.lastProcessTime, this.valueIndex, this.samplesWritten := currentTime, valueIndex, 0;
    }

    /** Produces the samples that are due and hands them to the signal, which counts them. */
    method Process(now: int)
      requires samplePeriod > 0
      modifies this
      ensures View() == ProcessAt(old(View()), now)
    {
      hide Quotient, Kept;
      if now >= lastProcessTime {
        QuotientIsDivision(now - lastProcessTime, samplePeriod);
        var samplesToProcess := (now - lastProcessTime) / samplePeriod % 0x1_0000_0000;
        var first, step := lastProcessTime, Kept(samplePeriod, exact);
        for sampleIndex := 0 to samplesToProcess
          invariant lastProcessTime == first + sampleIndex * step
          invariant valueIndex == old(valueIndex) && samplesWritten == old(samplesWritten)
        {
          lastProcessTime := lastProcessTime + step;
        }
        valueIndex := Wrap(valueIndex + samplesToProcess);
        samplesWritten := samplesWritten + samplesToProcess;
      }
    }
  }

  /** The generator's time after a number of rounds. */
  function TimeAfter(time: int, processPeriod: nat, exact: bool, rounds: nat): int {
    time + rounds * Kept(processPeriod, exact)
  }

  /** The number of rounds in a finite execution time: one at the start and one for each step. */
  function Rounds(executionTime: nat, processPeriod: nat, exact: bool): nat {
    Quotient(Kept(executionTime, exact), Kept(processPeriod, exact)) + 1
  }

  /** The last round is the last one that is not after the end time. */
  lemma LastRound(time: int, executionTime: nat, processPeriod: nat, exact: bool)
    requires Kept(processPeriod, exact) > 0
    ensures var rounds, end := Rounds(executionTime, processPeriod, exact), time + Kept(executionTime, exact);
            TimeAfter(time, processPeriod, exact, rounds - 1) <= end < TimeAfter(time, processPeriod, exact, rounds)
  {
    hide Quotient, Kept;
    var step, q := Kept(processPeriod, exact), Rounds(executionTime, processPeriod, exact) - 1;
    QuotientBounds(Kept(executionTime, exact), step);
    assert (q + 1) * step == q * step + step;
  }

  /** The loop of the generator gets beyond its end time if and only if the process period is at
      least one nanosecond, on a build without nanosecond time points one microsecond. Otherwise no
      round moves the time. */
  lemma EndsIff(time: int, executionTime: nat, processPeriod: nat, exact: bool)
    ensures (exists rounds: nat :: TimeAfter(time, processPeriod, exact, rounds) > time + Kept(executionTime, exact))
       <==> processPeriod >= if exact then 1 else 1000
    ensures processPeriod < (if exact then 1 else 1000) ==>
              forall rounds: nat :: TimeAfter(time, processPeriod, exact, rounds) == time
  {
    var step := Kept(processPeriod, exact);
    if processPeriod >= if exact then 1 else 1000 {
      var rounds := Kept(executionTime, exact) + 1;
      MulMonotone(1, step, rounds);
      assert TimeAfter(time, processPeriod, exact, rounds) > time + Kept(executionTime, exact);
    } else {
      assert step == 0;
    }
  }

  class SignalGenerator {
    var time: int
    const signals: seq<GeneratedSignal>

    ghost predicate Valid()
      reads this
    {
      && (forall i, j :: 0 <= i < j < |signals| ==> signals[i] != signals[j])
      && (forall i :: 0 <= i < |signals| ==> signals[i].samplePeriod > 0)
    }

    constructor (time: int, signals: seq<GeneratedSignal>)
      requires forall i, j :: 0 <= i < j < |signals| ==> signals[i] != signals[j]
      requires forall i :: 0 <= i < |signals| ==> signals[i].samplePeriod > 0
      ensures Valid() && this.time == time && this.signals == signals
    {
      this.time, this.signals := time, signals;
    }

    /** One round over all signals. */
    method ProcessAll(now: int)
      requires Valid()
      modifies signals
      ensures forall i :: 0 <= i < |signals| ==> signals[i].View() == ProcessAt(old(signals[i].View()), now)
    {
      for i := 0 to |signals|
        invariant forall j :: 0 <= j < i ==> signals[j].View() == ProcessAt(old(signals[j].View()), now)
        invariant forall j :: i <= j < |signals| ==> signals[j].View() == old(signals[j].View())
      {
        signals[i].Process(now);
      }
    }

    /** Runs for a finite execution time: every signal is processed at the start and then once per
        step up to the end time. The loop ends exactly for a step of at least one resolution unit,
        as EndsIff says. */
    method Start(executionTime: nat, processPeriod: nat, exact: bool)
      requires Valid() && executionTime > 0 && Kept(processPeriod, exact) > 0
      modifies this, signals
      ensures Valid()
      ensures var step, rounds := Kept(processPeriod, exact), Rounds(executionTime, processPeriod, exact);
              && time == old(time) + rounds * step
              && forall i :: 0 <= i < |signals| ==>
                   signals[i].View() == Ticked(old(signals[i].View()), old(time), step, rounds)
    {
      var start, step := time, Kept(processPeriod, exact);
      var endTime := time + Kept(executionTime, exact);
      ghost var k: nat := 0;
      while time <= endTime
        invariant Valid()
        invariant time == start + k * step
        invariant k == 0 || start + (k - 1) * step <= endTime
        invariant forall i :: 0 <= i < |signals| ==>
                    signals[i].View() == Ticked(old(signals[i].View()), start, step, k)
        decreases endTime - time
      {
        ProcessAll(time);
        assert (k + 1) * step == k * step + step;
        time := time + step;
        k := k + 1;
      }
      QuotientIsDivision(Kept(executionTime, exact), step);
      DivUnique(endTime - start, step, k - 1);
    }
  }
}
