/** Conversion between time ticks and nanoseconds in 64-bit arithmetic. */
module Ticks {
  import opened Words

  /** Ticks to nanoseconds: whole seconds and the rest are converted separately, so that only the
      rest is multiplied before the division. All products wrap at 64 bits. */
  function NanosecondsFromTimeTicks(ticks: Word64, perSecond: Word64): int
    requires perSecond > 0
  {
    var seconds := ticks / perSecond;
    var subTicks := Wrap(ticks % perSecond * 1_000_000_000) / perSecond;
    Signed64(Wrap(Wrap(seconds * 1_000_000_000) + subTicks))
  }

  /** The result truncated to microseconds. */
  function MicrosecondsFromTimeTicks(ticks: Word64, perSecond: Word64): int
    requires perSecond > 0
  {
    var ns := NanosecondsFromTimeTicks(ticks, perSecond);
    if ns >= 0 then ns / 1000 else -((-ns) / 1000)
  }

  /** An output period in nanoseconds as a number of ticks. */
  function OutputRateInTicks(perSecond: Word64, ns: nat): Word64 {
    Wrap(perSecond * ns) / 1_000_000_000
  }

  // ------------------------------------------------------------------ division

  lemma DivBounds(x: int, k: nat)
    requires k > 0
    ensures x / k * k <= x < x / k * k + k
  {
  }

  lemma MulCancel(a: int, b: int, k: nat)
    requires a * k < b * k
    ensures a < b
  {
    if b <= a {
      MulMonotone(b, a, k);
    }
  }

  lemma DivMonotone(x: int, y: int, k: nat)
    requires k > 0 && x <= y
    ensures x / k <= y / k
  {
    DivBounds(x, k);
    DivBounds(y, k);
    var a, b := x / k, y / k;
    assert (b + 1) * k == b * k + k;
    MulCancel(a, b + 1, k);
  }

  /** Adding a multiple of the divisor. */
  lemma DivOfSum(q: int, x: int, k: nat)
    requires k > 0
    ensures (q * k + x) / k == q + x / k
  {
    DivBounds(x, k);
    assert (q + x / k) * k == q * k + x / k * k;
    DivUnique(q * k + x, k, q + x / k);
  }

  lemma DivDiv(x: nat, k: nat)
    requires k > 0
    ensures 1000 * x / k / 1000 == x / k
  {
    var q, n := x / k, 1000 * x / k;
    DivBounds(x, k);
    DivBounds(1000 * x, k);
    var qk, nk := q * k, n * k;
    assert 1000 * q * k == 1000 * qk;
    assert (n + 1) * k == nk + k;
    assert (1000 * q + 1000) * k == 1000 * qk + 1000 * k;
    MulCancel(1000 * q, n + 1, k);
    MulCancel(n, 1000 * q + 1000, k);
  }

  /** The split computation is exact over the integers. */
  lemma Split(ticks: nat, f: nat)
    requires f > 0
    ensures ticks * 1_000_000_000 / f == ticks / f * 1_000_000_000 + ticks % f * 1_000_000_000 / f
  {
    var q, r := ticks / f, ticks % f;
    assert ticks == q * f + r;
    var qf := q * f;
    assert q * 1_000_000_000 * f == qf * 1_000_000_000;
    DivOfSum(q * 1_000_000_000, r * 1_000_000_000, f);
  }

  lemma DivNonNegative(x: nat, k: nat)
    requires k > 0
    ensures 0 <= x / k <= x
  {
    DivBounds(x, k);
    var q := x / k;
    if q < 0 {
      MulMonotone(q, -1, k);
    } else {
      MulMonotone(1, k, q);
    }
  }

  /** A wrapped product of 2^64 or more loses at least one whole quotient. */
  lemma WrappedQuotientSmaller(x: nat, f: Word64)
    requires f > 0 && x >= 0x1_0000_0000_0000_0000
    ensures Wrap(x) / f < x / f
  {
    DivMonotone(Wrap(x) + f, x, f);
    DivOfSum(1, Wrap(x), f);
  }

  /** Microseconds are nanoseconds with the fraction cut off, towards zero. */
  lemma MicrosecondsCutOff(ticks: Word64, perSecond: Word64)
    requires perSecond > 0
    ensures var ns, us := NanosecondsFromTimeTicks(ticks, perSecond), MicrosecondsFromTimeTicks(ticks, perSecond);
            && (ns >= 0 ==> us * 1000 <= ns < us * 1000 + 1000)
            && (ns <= 0 ==> us * 1000 - 1000 < ns <= us * 1000)
  {
    hide NanosecondsFromTimeTicks;
  }

  /** An output period is converted exactly if and only if the product fits 64 bits; otherwise the
      result is too small, below 2^64 / 10^9. */
  lemma OutputRateExactIff(perSecond: Word64, ns: nat)
    ensures OutputRateInTicks(perSecond, ns) == perSecond * ns / 1_000_000_000
       <==> perSecond * ns < 0x1_0000_0000_0000_0000
    ensures OutputRateInTicks(perSecond, ns) <= 18_446_744_073
  {
    var x := perSecond * ns;
    assert x >= 0;
    if x >= 0x1_0000_0000_0000_0000 {
      WrappedQuotientSmaller(x, 1_000_000_000);
    }
  }

  // ------------------------------------------------------------------ exactness

  /** The conversion is exact if and only if the rest below a second can be multiplied without
      overflow and the result is a signed 64-bit number. */
  lemma ExactIff(ticks: Word64, f: Word64)
    requires f > 0
    ensures NanosecondsFromTimeTicks(ticks, f) == ticks * 1_000_000_000 / f
       <==> ticks % f * 1_000_000_000 < 0x1_0000_0000_0000_0000
            && ticks * 1_000_000_000 / f < 0x8000_0000_0000_0000
  {
    hide NanosecondsFromTimeTicks, Wrap, Signed64;
    Split(ticks, f);
    Computed(ticks, f);
    var q, x := ticks / f, ticks % f * 1_000_000_000;
    DivNonNegative(ticks, f);
    DivNonNegative(x, f);
    DivNonNegative(Wrap(x), f);
    WrappedQuotient(x, f);
    TotalsIff(q, Wrap(x) / f, x / f, ticks * 1_000_000_000 / f);
  }

  lemma WrappedQuotient(x: nat, f: Word64)
    requires f > 0
    ensures Wrap(x) / f <= x / f && (Wrap(x) / f == x / f <==> x < 0x1_0000_0000_0000_0000)
  {
    hide Wrap;
    if x >= 0x1_0000_0000_0000_0000 {
      WrappedQuotientSmaller(x, f);
    } else {
      WrapSmall(x);
    }
  }

  lemma WrapSmall(x: nat)
    requires x < 0x1_0000_0000_0000_0000
    ensures Wrap(x) == x
  {
  }

  lemma Computed(ticks: Word64, f: Word64)
    requires f > 0
    ensures NanosecondsFromTimeTicks(ticks, f)
         == Signed64(Wrap(Wrap(ticks / f * 1_000_000_000) + Wrap(ticks % f * 1_000_000_000) / f))
  {
  }

  lemma TotalsIff(q: nat, wrapped: nat, sub: nat, exact: nat)
    requires exact == q * 1_000_000_000 + sub && wrapped <= sub
    ensures Signed64(Wrap(Wrap(q * 1_000_000_000) + wrapped)) == exact
       <==> wrapped == sub && exact < 0x8000_0000_0000_0000
  {
    WrapAdd(q * 1_000_000_000, wrapped);
    if exact < 0x8000_0000_0000_0000 {
      assert Wrap(q * 1_000_000_000 + wrapped) == q * 1_000_000_000 + wrapped;
    }
  }

  /** Resolutions up to 18446744074 ticks per second never overflow below a second. */
  lemma ExactForResolution(ticks: Word64, f: Word64)
    requires 1 <= f <= 18_446_744_074 && ticks * 1_000_000_000 / f < 0x8000_0000_0000_0000
    ensures NanosecondsFromTimeTicks(ticks, f) == ticks * 1_000_000_000 / f
    ensures MicrosecondsFromTimeTicks(ticks, f) == ticks * 1_000_000 / f
  {
    ExactIff(ticks, f);
    DivNonNegative(ticks * 1_000_000_000, f);
    DivDiv(ticks * 1_000_000, f);
  }

  lemma Monotone(t1: Word64, t2: Word64, f: Word64)
    requires 1 <= f <= 18_446_744_074 && t1 <= t2 && t2 * 1_000_000_000 / f < 0x8000_0000_0000_0000
    ensures NanosecondsFromTimeTicks(t1, f) <= NanosecondsFromTimeTicks(t2, f)
  {
    DivMonotone(t1 * 1_000_000_000, t2 * 1_000_000_000, f);
    ExactForResolution(t1, f);
    ExactForResolution(t2, f);
  }

  // ------------------------------------------------------------------ output rate

  /** Converting a period to ticks and back never gives more, loses at most one tick rounded up, and
      is exact if and only if the period is a whole number of ticks. */
  lemma OutputRateRoundTrip(f: Word64, ns: nat)
    requires f > 0 && f * ns < 0x1_0000_0000_0000_0000 && ns < 0x8000_0000_0000_0000
    ensures var back := NanosecondsFromTimeTicks(OutputRateInTicks(f, ns), f);
            && back <= ns
            && ns - back <= (1_000_000_000 + f - 1) / f
            && (back == ns <==> f * ns % 1_000_000_000 == 0)
  {
    hide NanosecondsFromTimeTicks, OutputRateInTicks;
    var ticks: int := OutputRateInTicks(f, ns);
    var lost: int := f * ns - ticks * 1_000_000_000;
    TicksBelow(f, ns);
    LossBound(lost, f);
    BackInNanoseconds(f, ns, lost);
    ExactWhenSmall(ticks, f);
  }

  lemma ExactWhenSmall(ticks: Word64, f: Word64)
    requires f > 0 && ticks * 1_000_000_000 < 0x1_0000_0000_0000_0000
    requires ticks * 1_000_000_000 / f < 0x8000_0000_0000_0000
    ensures NanosecondsFromTimeTicks(ticks, f) == ticks * 1_000_000_000 / f
  {
    hide NanosecondsFromTimeTicks;
    Smaller(ticks, f);
    ExactIff(ticks, f);
  }

  lemma TicksBelow(f: Word64, ns: nat)
    requires f * ns < 0x1_0000_0000_0000_0000
    ensures var lost := f * ns - OutputRateInTicks(f, ns) * 1_000_000_000;
            0 <= lost < 1_000_000_000 && lost == f * ns % 1_000_000_000
  {
    var p := f * ns;
    assert Wrap(p) == p;
  }

  lemma BackInNanoseconds(f: nat, ns: nat, lost: int)
    requires f > 0
    ensures (f * ns - lost) / f == ns + (-lost) / f
  {
    DivOfSum(ns, -lost, f);
  }

  /** Rounding down a negative rest. */
  lemma LossBound(lost: int, f: nat)
    requires f > 0 && 0 <= lost < 1_000_000_000
    ensures -((1_000_000_000 + f - 1) / f) <= (-lost) / f <= 0
    ensures (-lost) / f == 0 <==> lost == 0
  {
    var c := (1_000_000_000 + f - 1) / f;
    DivBounds(-lost, f);
    DivBounds(1_000_000_000 + f - 1, f);
    var d := (-lost) / f;
    assert (d + 1) * f == d * f + f;
    assert (-c) * f == -(c * f);
    MulCancel(-c, d + 1, f);
    DivMonotone(-lost, 0, f);
    DivUnique(0, f, 0);
  }

  lemma Smaller(ticks: nat, f: nat)
    requires f > 0
    ensures ticks % f <= ticks
  {
    DivNonNegative(ticks, f);
    var whole := ticks / f * f;
    MulMonotone(0, ticks / f, f);
    assert 0 <= whole && ticks == whole + ticks % f;
  }
}
