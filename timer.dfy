/** An 8-bit countdown timer that never goes below zero (src/timer.rs). */
module Timers {
  import opened Common

  /** `v.saturating_sub(1)` on a `u8`: one less, or 0 where that would be negative. It never wraps
      round to 255. */
  function SaturatingDec(v: u8): (r: u8)
    ensures r as int == Max(v as int - 1, 0)
  {
    if v >= 1 then v - 1 else 0
  }

  /** The value after `k` calls of `decrement`. */
  function DecrementN(v: u8, k: nat): u8
    decreases k
  {
    if k == 0 then v else DecrementN(SaturatingDec(v), k - 1)
  }

  /** `k` decrements from `v` leave `max(v - k, 0)`. */
  lemma {:induction false} DecrementNSaturates(v: u8, k: nat)
    ensures DecrementN(v, k) as int == Max(v as int - k, 0)
  {
    if k > 0 {
      DecrementNSaturates(SaturatingDec(v), k - 1);
    }
  }

  /** At 0 decrementing is a fixed point: however often it is repeated, the timer stays 0. */
  lemma ZeroStaysZero(k: nat)
    ensures DecrementN(0, k) == 0
  {
    DecrementNSaturates(0, k);
  }

  class Timer {
    var value: u8

    /** `Timer::default`: the timer starts at 0. */
    constructor Default()
      ensures value == 0
    {
      value := 0;
    }

    /** Reads the value, changing nothing. */
    method Get() returns (v: u8)
      ensures v == value
    {
      v := value;
    }

    method Set(v: u8)
      modifies this
      ensures value == v
    {
      value := v;
    }

    /** Decrements by one, saturating at 0. */
    method Decrement()
      modifies this
      ensures value == SaturatingDec(old(value))
      ensures value as int == Max(old(value) as int - 1, 0)
    {
      value := SaturatingDec(value);
    }
  }

  /** The first test of src/timer.rs: set 10, decrement four times, read 6. */
  method DecrementsFromTen()
  {
    var timer := new Timer.Default();
    timer.Set(10);
    for k := 1 to 5
      invariant timer.value == DecrementN(10, k - 1)
    {
      timer.Decrement();
      DecrementAfter(10, k - 1);
    }
    var v := timer.Get();
    DecrementNSaturates(10, 4);
    assert v == 6;
  }

  /** One more decrement after `k` is the same as `k + 1` decrements. */
  lemma {:induction false} DecrementAfter(v: u8, k: nat)
    ensures DecrementN(v, k + 1) == SaturatingDec(DecrementN(v, k))
  {
    if k > 0 {
      DecrementAfter(SaturatingDec(v), k - 1);
    }
  }

  /** The second test of src/timer.rs: from 1, two decrements read 0. */
  method StaysAtZero()
  {
    var timer := new Timer.Default();
    timer.Set(1);
    timer.Decrement();
    timer.Decrement();
    var v := timer.Get();
    assert v == 0;
  }
}
