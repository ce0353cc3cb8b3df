/** Signal numbers are drawn from a 32-bit counter of which the lower 20 bits are used; the number
    0 is reserved for the stream and skipped. */
module Numbering {

  /** Increment, wrapping at 32 bits, and once more when the lower 20 bits became zero. */
  function Next(counter: nat): nat {
    var c := (counter + 1) % 0x1_0000_0000;
    if c % 0x10_0000 == 0 then (c + 1) % 0x1_0000_0000 else c
  }

  /** The counter after k calls. */
  function Counter(k: nat): nat {
    if k == 0 then 0 else Next(Counter(k - 1))
  }

  /** Closed form of the number issued by the k-th call, counted from 1. */
  function Issued(k: nat): (n: nat)
    requires k >= 1
    ensures 1 <= n < 0x10_0000
  {
    (k - 1) % 0xF_FFFF + 1
  }

  lemma NextLow(c: nat)
    requires c < 0x1_0000_0000
    ensures Next(c) < 0x1_0000_0000
    ensures Next(c) % 0x10_0000 == if c % 0x10_0000 == 0xF_FFFF then 1 else c % 0x10_0000 + 1
  {
    LowStep(c);
    var d := (c + 1) % 0x1_0000_0000;
    LowStep(d);
  }

  /** The lower 20 bits of a 32-bit increment. */
  lemma LowStep(x: nat)
    ensures (x + 1) % 0x1_0000_0000 % 0x10_0000 == if x % 0x10_0000 == 0xF_FFFF then 0 else x % 0x10_0000 + 1
  {
    var q, r := x / 0x10_0000, x % 0x10_0000;
    var k := (x + 1) / 0x1_0000_0000;
    assert x + 1 == 0x10_0000 * q + r + 1;
    assert (x + 1) % 0x1_0000_0000 == 0x10_0000 * (q - 0x1000 * k) + r + 1;
  }

  lemma IssuedNext(k: nat)
    requires k >= 1
    ensures Issued(k + 1) == if Issued(k) == 0xF_FFFF then 1 else Issued(k) + 1
  {
  }

  /** The k-th number is the closed form, for every k, across the wrap of the counter. */
  lemma {:induction false} NumberOfCall(k: nat)
    ensures Counter(k) < 0x1_0000_0000
    ensures Counter(k) % 0x10_0000 == if k == 0 then 0 else Issued(k)
  {
    if k != 0 {
      NumberOfCall(k - 1);
      NextLow(Counter(k - 1));
      if k > 1 {
        IssuedNext(k - 1);
      }
    }
  }

  /** Among any 2^20 - 1 consecutive calls no number is issued twice, and the next call repeats. */
  lemma IssuedDistinct(i: nat, j: nat)
    requires 1 <= i < j
    ensures j - i < 0xF_FFFF ==> Issued(i) != Issued(j)
    ensures j - i == 0xF_FFFF ==> Issued(i) == Issued(j)
  {
  }

  class NumberSource {
    var counter: nat
    ghost var calls: nat

    ghost predicate Valid()
      reads this
    {
      counter == Counter(calls)
    }

    constructor ()
      ensures Valid() && calls == 0
    {
      counter, calls := 0, 0;
    }

    method NextSignalNumber() returns (n: nat)
      requires Valid()
      modifies this
      ensures Valid() && calls == old(calls) + 1
      ensures n == Issued(calls)
    {
      NumberOfCall(calls + 1);
      calls := calls + 1;
      counter := (counter + 1) % 0x1_0000_0000;
      if counter % 0x10_0000 == 0 {
        counter := (counter + 1) % 0x1_0000_0000;
      }
      n := counter % 0x10_0000;
    }
  }
}
