/**
 The 64-bit time that the CSV driver accumulates from wrapping 32-bit timestamps.

 On a wrap `clocks_between` adds 2^32 - 1 instead of 2^32, so that each wrap of the counter loses one tick.
 */
module Clock {

  const WRAP := 0x1_0000_0000
  const LONG := 0x1_0000_0000_0000_0000

  /** `clocks_between`: the 64-bit difference, cut down to 32 bits. */
  function ClocksBetween(previous: nat, current: nat): (d: nat)
    requires previous < WRAP && current < WRAP
    ensures d < WRAP
  {
    var larger := if previous > current then current + 0xFFFF_FFFF else current;
    (larger - previous) % WRAP
  }

  /** What the driver keeps between packets: the accumulated time and the last timestamp, 0 for none yet. */
  datatype Accumulator = Accumulator(time: nat, last: nat)

  function Accumulate(a: Accumulator, timestamp: nat): (r: Accumulator)
    requires a.last < WRAP && timestamp < WRAP
    ensures r.last < WRAP
  {
    if a.last == 0 then a.(last := timestamp)
    else Accumulator((a.time + ClocksBetween(a.last, timestamp)) % LONG, timestamp)
  }

  /** The driver's statics, updated in place. */
  class Timer {
    var time: nat
    var last: nat

    ghost function State(): Accumulator
      reads this
    {
      Accumulator(time, last)
    }

    constructor ()
      ensures State() == Accumulator(0, 0)
    {
      time, last := 0, 0;
    }

    method Receive(timestamp: nat)
      requires last < WRAP && timestamp < WRAP
      modifies this
      ensures State() == Accumulate(old(State()), timestamp) && last < WRAP
    {
      if last == 0 {
        last := timestamp;
      } else {
        time := (time + ClocksBetween(last, timestamp)) % LONG;
        last := timestamp;
      }
    }
  }

  // ----- runs -----

  /** How often the 32-bit counter has wrapped by tick `n`, and what it then shows. */
  function Wraps(n: nat): nat { n / WRAP }

  function Shown(n: nat): (timestamp: nat)
    ensures timestamp < WRAP
  {
    n % WRAP
  }

  /** Instants of the true clock, in ticks: increasing, and less than one wrap apart. */
  ghost predicate Instants(ticks: seq<nat>) {
    forall i :: 0 < i < |ticks| ==> ticks[i - 1] <= ticks[i] < ticks[i - 1] + WRAP
  }

  /** The gaps behind those instants at which the counter shows 0: the driver takes 0 for "no packet yet". */
  function Lost(ticks: seq<nat>): nat
    requires Instants(ticks)
  {
    if |ticks| <= 1 then 0
    else
      var now, previous := ticks[|ticks| - 1], ticks[|ticks| - 2];
      Lost(ticks[..|ticks| - 1]) + (if Shown(previous) == 0 then now - previous else 0)
  }

  function Run(ticks: seq<nat>): (a: Accumulator)
    ensures a.last < WRAP
  {
    if ticks == [] then Accumulator(0, 0) else Accumulate(Run(ticks[..|ticks| - 1]), Shown(ticks[|ticks| - 1]))
  }

  lemma Parts(n: nat)
    ensures n == Wraps(n) * WRAP + Shown(n)
  {}

  /** The true gap, less one tick if the counter wrapped in it. */
  lemma OneGap(a: nat, b: nat)
    requires a <= b < a + WRAP
    ensures ClocksBetween(Shown(a), Shown(b)) == b - a - (Wraps(b) - Wraps(a))
    ensures Wraps(a) <= Wraps(b)
  {
    Parts(a);
    Parts(b);
    hide Wraps, Shown;
    assert Wraps(b) == Wraps(a) || Wraps(b) == Wraps(a) + 1;
  }

  /** From an instant at which the counter shows 0, it does not wrap before the next. */
  lemma NoWrapFromZero(a: nat, b: nat)
    requires a <= b < a + WRAP && Shown(a) == 0
    ensures Wraps(b) == Wraps(a)
  {
    Parts(a);
    Parts(b);
  }

  lemma {:induction false} LastOf(ticks: seq<nat>)
    requires Instants(ticks) && ticks != []
    ensures Run(ticks).last == Shown(ticks[|ticks| - 1])
  {
    hide Shown, ClocksBetween;
    var before := ticks[..|ticks| - 1];
    assert Run(ticks) == Accumulate(Run(before), Shown(ticks[|ticks| - 1]));
  }

  lemma {:induction false} Monotone(ticks: seq<nat>)
    requires Instants(ticks) && ticks != []
    ensures ticks[0] <= ticks[|ticks| - 1]
    decreases |ticks|
  {
    hide Shown;
    if |ticks| > 1 { Monotone(ticks[..|ticks| - 1]); }
  }

  /** The true time since the first packet, less one tick for each wrap of the counter, less the gaps that are lost. */
  function Measured(ticks: seq<nat>): int
    requires Instants(ticks) && ticks != []
  {
    var first, now := ticks[0], ticks[|ticks| - 1];
    now - first - (Wraps(now) - Wraps(first)) - Lost(ticks)
  }

  lemma {:induction false} MeasuredIsInRange(ticks: seq<nat>)
    requires Instants(ticks) && ticks != []
    ensures Measured(ticks) >= 0 && Measured(ticks) + ticks[0] <= ticks[|ticks| - 1]
    decreases |ticks|
  {
    hide Shown, Wraps;
    if |ticks| > 1 {
      var before, previous, now := ticks[..|ticks| - 1], ticks[|ticks| - 2], ticks[|ticks| - 1];
      MeasuredIsInRange(before);
      WrapsMonotone(previous, now);
      GapIsNoSmaller(previous, now);
      if Shown(previous) == 0 { NoWrapFromZero(previous, now); }
    }
  }

  /** Every wrap takes a tick that was there. */
  lemma GapIsNoSmaller(a: nat, b: nat)
    requires a <= b < a + WRAP
    ensures Wraps(b) - Wraps(a) <= b - a
  {
    OneGap(a, b);
  }

  lemma AddsOn(time: nat, n: nat, gap: nat)
    requires time == n % LONG
    ensures (time + gap) % LONG == (n + gap) % LONG
  {
    assert n + gap == n / LONG * LONG + (time + gap);
    ModuloMore(time + gap, n / LONG);
  }

  lemma {:induction false} ModuloMore(n: nat, k: nat)
    ensures (k * LONG + n) % LONG == n % LONG
  {
    var q, r := n / LONG, n % LONG;
    assert k * LONG + n == (k + q) * LONG + r;
  }

  /**
   The accumulated time is the true time since the first packet, less exactly one tick for each wrap
   of the counter, less the gaps behind instants at which the counter shows 0, in the 64 bits there are; in every run.
   */
  lemma {:induction false} AccumulatesTrueTimeLessWraps(ticks: seq<nat>)
    requires Instants(ticks) && ticks != []
    ensures Measured(ticks) >= 0 && Run(ticks).time == Measured(ticks) % LONG
    decreases |ticks|
  {
    hide Shown, Wraps, ClocksBetween;
    MeasuredIsInRange(ticks);
    var before, now := ticks[..|ticks| - 1], ticks[|ticks| - 1];
    if |ticks| == 1 {
      assert Run(before) == Accumulator(0, 0);
    } else {
      var previous := before[|before| - 1];
      assert previous == ticks[|ticks| - 2] && before[0] == ticks[0];
      MeasuredIsInRange(before);
      AccumulatesTrueTimeLessWraps(before);
      LastOf(before);
      if Shown(previous) == 0 {
        NoWrapFromZero(previous, now);
        assert Measured(ticks) == Measured(before);
      } else {
        OneGap(previous, now);
        var gap := ClocksBetween(Shown(previous), Shown(now));
        assert Measured(ticks) == Measured(before) + gap;
        AddsOn(Run(before).time, Measured(before), gap);
      }
    }
  }

  /** While the run is shorter than 2^64 ticks, it is exact if and only if the counter did not wrap and no gap was lost. */
  lemma {:induction false} ExactIffNoWrap(ticks: seq<nat>)
    requires Instants(ticks) && ticks != []
    requires ticks[|ticks| - 1] - ticks[0] < LONG
    ensures
      var first, now := ticks[0], ticks[|ticks| - 1];
      Run(ticks).time + first == now <==> Wraps(now) == Wraps(first) && Lost(ticks) == 0
  {
    hide Wraps, Shown, Lost;
    AccumulatesTrueTimeLessWraps(ticks);
    MeasuredIsInRange(ticks);
    Monotone(ticks);
    WrapsMonotone(ticks[0], ticks[|ticks| - 1]);
  }

  lemma WrapsMonotone(a: nat, b: nat)
    requires a <= b
    ensures Wraps(a) <= Wraps(b)
  {
    Parts(a);
    Parts(b);
  }

  lemma {:induction false} NothingLostWithoutZeros(ticks: seq<nat>)
    requires Instants(ticks) && forall i :: 0 <= i < |ticks| ==> Shown(ticks[i]) != 0
    ensures Lost(ticks) == 0
  {
    hide Shown;
    if |ticks| > 1 { NothingLostWithoutZeros(ticks[..|ticks| - 1]); }
  }

  /** In particular, with no timestamp of zero the accumulated time is the true time less the number of wraps. */
  lemma {:induction false} WithoutZerosOnlyWrapsAreLost(ticks: seq<nat>)
    requires Instants(ticks) && ticks != [] && forall i :: 0 <= i < |ticks| ==> Shown(ticks[i]) != 0
    requires ticks[|ticks| - 1] - ticks[0] < LONG
    ensures
      var first, now := ticks[0], ticks[|ticks| - 1];
      Run(ticks).time == now - first - (Wraps(now) - Wraps(first))
  {
    hide Wraps, Shown, Lost;
    AccumulatesTrueTimeLessWraps(ticks);
    MeasuredIsInRange(ticks);
    NothingLostWithoutZeros(ticks);
  }
}
