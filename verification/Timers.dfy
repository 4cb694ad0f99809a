/** Times, frequencies and timer ticks: StreamTimeToTicks_Local and StreamFrequencyToTicks_Local
    (library/meids_local_calls.c), meIOSingleTicksToTime (library/meids_global.c). */
module Timers {
  import opened Defines
  import opened Ticks

  /** A C double that may be infinite; HUGE_VAL is Huge. */
  datatype Quantity = Finite(r: real) | Huge | MinusHuge

  /** What the driver says of a timer: the tick rate in Hz and the least and greatest number of ticks. */
  datatype Timer = Timer(base: int32, min: Halves, max: Halves)

  // The arithmetic.

  function Cycles(time: real, base: int): real {
    time * base as real
  }

  function Seconds(ticks: int, base: int): real
    requires base != 0
  {
    ticks as real / base as real
  }

  function Per(base: int, frequency: real): real
    requires frequency != 0.0
  {
    base as real / frequency
  }

  /** The integer nearest to x, halves rounded up: x + 0.5 cast to an unsigned integer, which for x >= 0 is Floor. */
  function Nearest(x: real): int {
    (x + 0.5).Floor
  }

  function Clamp(x: int, low: int, high: int): int {
    if x < low then low else if x > high then high else x
  }

  /** Comparing with q = k / b is comparing the product with k. */
  lemma CompareQuotient(k: real, b: real, x: real)
    requires b > 0.0
    ensures k / b * b == k
    ensures x < k / b <==> x * b < k
    ensures x > k / b <==> x * b > k
  {
  }

  lemma CompareSeconds(k: int, base: int, time: real)
    requires base > 0
    ensures Cycles(Seconds(k, base), base) == k as real
    ensures time < Seconds(k, base) <==> Cycles(time, base) < k as real
    ensures time > Seconds(k, base) <==> Cycles(time, base) > k as real
  {
  }

  lemma CyclesAreMonotone(a: real, b: real, base: int)
    requires a <= b && base > 0
    ensures Cycles(a, base) <= Cycles(b, base)
  {
  }

  lemma NearestBetween(x: real, low: int, high: int)
    ensures x < low as real ==> Nearest(x) <= low
    ensures x > high as real ==> Nearest(x) >= high
    ensures low as real <= x <= high as real ==> low <= Nearest(x) <= high
  {
  }

  lemma NearestIsMonotone(x: real, y: real)
    requires x <= y
    ensures Nearest(x) <= Nearest(y)
  {
  }

  lemma NearestIsClose(x: real)
    ensures -0.5 <= Nearest(x) as real - x <= 0.5
  {
  }

  lemma NearestOfInt(k: int)
    ensures Nearest(k as real) == k
  {
  }

  // Times.

  predicate Usable(t: Timer) {
    Join(t.min) != 0 && Join(t.max) != 0 && t.base != 0
  }

  function MinTime(t: Timer): real
    requires t.base != 0
  {
    Seconds(Join(t.min), t.base)
  }

  function MaxTime(t: Timer): real
    requires t.base != 0
  {
    Seconds(Join(t.max), t.base)
  }

  /** Between the bounds the ticks lie between the bounds, also for a negative rate, so that the cast is defined. */
  lemma BetweenBounds(min: nat, max: nat, base: int, time: real)
    requires base != 0 && Seconds(min, base) <= time <= Seconds(max, base)
    ensures 0 <= Nearest(Cycles(time, base))
    ensures (Nearest(Cycles(time, base)) <= max || Nearest(Cycles(time, base)) <= min)
  {
  }

  /** The ticks for a time, by the three cases of the code. */
  function TicksFor(timer: Timer, time: real): Halves {
    if !Usable(timer) then Halves(0, 0)
    else if time < MinTime(timer) then timer.min
    else if time > MaxTime(timer) then timer.max
    else BetweenBounds(Join(timer.min), Join(timer.max), timer.base, time); Split(Nearest(Cycles(time, timer.base)))
  }

  /** StreamTimeToTicks_Local after the query of the timer; both results are written through pointers. */
  method StreamTimeToTicks(queryErr: int, timer: Timer, streamTime: real)
    returns (err: int, time: Quantity, ticks: Halves)
    ensures err == queryErr
    ensures ticks == if err == ERRNO_SUCCESS then TicksFor(timer, streamTime) else Halves(0, 0)
    ensures err != ERRNO_SUCCESS || !Usable(timer) ==> time == Huge
    ensures err == ERRNO_SUCCESS && Usable(timer) ==>
            if streamTime < MinTime(timer) then time == Finite(MinTime(timer))
            else if streamTime > MaxTime(timer) then time == Finite(MaxTime(timer))
            else time == Finite(Seconds(Nearest(Cycles(streamTime, timer.base)), timer.base))
  {
    hide Join, Split, Nearest, Seconds, Cycles;
    err := queryErr;
    if err == ERRNO_SUCCESS {
      var minTicks, maxTicks := Join(timer.min), Join(timer.max);
      if maxTicks != 0 && minTicks != 0 && timer.base != 0 {
        if streamTime < Seconds(minTicks, timer.base) {
          time, ticks := Finite(Seconds(minTicks, timer.base)), timer.min;
        } else if streamTime > Seconds(maxTicks, timer.base) {
          time, ticks := Finite(Seconds(maxTicks, timer.base)), timer.max;
        } else {
          BetweenBounds(minTicks, maxTicks, timer.base, streamTime);
          var t: uint64 := Nearest(Cycles(streamTime, timer.base));
          time, ticks := Finite(Seconds(t, timer.base)), Split(t);
        }
      } else {
        time, ticks := Huge, Halves(0, 0);
      }
    } else {
      time, ticks := Huge, Halves(0, 0);
    }
  }

  // On a timer whose description makes sense.

  predicate Sane(t: Timer) {
    && t.base > 0
    && 0 < Join(t.min) <= Join(t.max)
    && t.min.low >= 0 && t.max.low >= 0
  }

  /** The nearest number of ticks within the bounds of the timer. */
  function TicksOf(timer: Timer, time: real): (r: uint64)
    requires Sane(timer)
    ensures Join(timer.min) <= r <= Join(timer.max)
  {
    Clamp(Nearest(Cycles(time, timer.base)), Join(timer.min), Join(timer.max))
  }

  /** The time that a number of ticks takes. */
  function TimeOf(timer: Timer, ticks: int): real
    requires Sane(timer)
  {
    Seconds(ticks, timer.base)
  }

  /** The three cases of StreamTimeToTicks are one clamped rounding, and the time it reports is that of the ticks. */
  lemma TimeIsClampedRounding(timer: Timer, time: real)
    requires Sane(timer)
    ensures var t := TicksOf(timer, time);
            && Usable(timer) && TicksFor(timer, time) == Split(t)
            && TimeOf(timer, t) == (if time < MinTime(timer) then MinTime(timer)
                                    else if time > MaxTime(timer) then MaxTime(timer)
                                    else Seconds(Nearest(Cycles(time, timer.base)), timer.base))
            && (MinTime(timer) <= time <= MaxTime(timer) ==> t == Nearest(Cycles(time, timer.base)))
  {
    hide Join, Split, Cycles, Seconds, Nearest;
    SplitJoin(timer.min);
    SplitJoin(timer.max);
    CompareSeconds(Join(timer.min), timer.base, time);
    CompareSeconds(Join(timer.max), timer.base, time);
    NearestBetween(Cycles(time, timer.base), Join(timer.min), Join(timer.max));
  }

  lemma TicksAreMonotone(timer: Timer, a: real, b: real)
    requires Sane(timer) && a <= b
    ensures TicksOf(timer, a) <= TicksOf(timer, b)
  {
    hide Join, Cycles, Nearest;
    CyclesAreMonotone(a, b, timer.base);
    NearestIsMonotone(Cycles(a, timer.base), Cycles(b, timer.base));
  }

  /** Within the bounds the achieved time is at most half a tick away. */
  lemma TicksAreClose(timer: Timer, time: real)
    requires Sane(timer) && MinTime(timer) <= time <= MaxTime(timer)
    ensures -0.5 / timer.base as real <= TimeOf(timer, TicksOf(timer, time)) - time <= 0.5 / timer.base as real
  {
    hide Join, TicksOf, Nearest;
    var b, t := timer.base as real, TicksOf(timer, time);
    var q := t as real / b;
    assert t == Nearest(Cycles(time, timer.base)) by {
      TimeIsClampedRounding(timer, time);
    }
    NearestIsClose(Cycles(time, timer.base));
    CompareQuotient(t as real, b, time);
    CompareQuotient(0.5, b, q - time);
    CompareQuotient(0.5, b, time - q);
    assert (q - time) * b == t as real - time * b;
    assert (time - q) * b == time * b - t as real;
  }

  /** Asking again for the achieved time gives the same ticks. */
  lemma TicksAreIdempotent(timer: Timer, time: real)
    requires Sane(timer)
    ensures TicksOf(timer, TimeOf(timer, TicksOf(timer, time))) == TicksOf(timer, time)
  {
    hide Join, Nearest, Cycles, Seconds;
    var t := TicksOf(timer, time);
    CompareSeconds(t, timer.base, time);
    NearestOfInt(t);
  }

  // Frequencies.

  /** (double)low + (double)((uint64_t)high << 32): the low half keeps its sign. */
  function Sum(h: Halves): (r: int)
    ensures r < TWO_64
    ensures h.low >= 0 ==> r == Join(h)
    ensures r == 0 <==> Join(h) == 0
  {
    HighPart(h);
    h.low + (h.high * TWO_32) % TWO_64
  }

  lemma HighPart(h: Halves)
    ensures var hi := if h.high >= 0 then h.high else h.high + TWO_32;
            && (h.high * TWO_32) % TWO_64 == hi * TWO_32
            && Join(h) == if h.low >= 0 || hi > 0 then h.low + hi * TWO_32 else h.low + TWO_64
  {
    var k := if h.high >= 0 then 0 else 1;
    assert h.high * TWO_32 == (h.high + k * TWO_32) * TWO_32 - k * TWO_64;
  }

  /** A double can be cast to uint64_t if the part before the point is in range; the fraction is dropped. */
  predicate CastDefined(x: real) {
    -1.0 < x < TWO_64 as real
  }

  /** `undefined` is what the cast gives where C leaves it open. */
  function Cast(x: real, undefined: uint64): uint64 {
    if !CastDefined(x) then undefined else if x < 0.0 then 0 else x.Floor
  }

  /** The frequency is rounded, not one of the bounds. */
  predicate IsRounded(timer: Timer, f: real) {
    && Usable(timer)
    && f != 0.0
    && Per(timer.base, Sum(timer.max) as real) <= f <= Per(timer.base, Sum(timer.min) as real)
  }

  /** The ticks for a frequency, by the three cases of the code. */
  function TicksForFrequency(timer: Timer, f: real, undefined: uint64): Halves {
    if !Usable(timer) then Halves(0, 0)
    else if f == 0.0 || f > Per(timer.base, Sum(timer.min) as real) then timer.min
    else if f < Per(timer.base, Sum(timer.max) as real) then timer.max
    else Split(Cast(Per(timer.base, f) + 0.5, undefined))
  }

  /** Dividing by a number of ticks that may be zero. */
  function Frequency(base: int, ticks: uint64): Quantity {
    if ticks != 0 then Finite(Per(base, ticks as real)) else if base > 0 then Huge else MinusHuge
  }

  /** StreamFrequencyToTicks_Local. */
  method StreamFrequencyToTicks(queryErr: int, timer: Timer, frequency: real, undefined: uint64)
    returns (err: int, freq: Quantity, ticks: Halves)
    ensures err == queryErr
    ensures ticks == if err == ERRNO_SUCCESS then TicksForFrequency(timer, frequency, undefined) else Halves(0, 0)
    ensures err != ERRNO_SUCCESS ==> freq == Finite(0.0)
    ensures err == ERRNO_SUCCESS && !Usable(timer) ==> freq == Huge
    ensures err == ERRNO_SUCCESS && Usable(timer) ==>
            var base, minTicks, maxTicks := timer.base, Sum(timer.min) as real, Sum(timer.max) as real;
            if frequency == 0.0 || frequency > Per(base, minTicks) then freq == Finite(Per(base, minTicks))
            else if frequency < Per(base, maxTicks) then freq == Finite(Per(base, maxTicks))
            else freq == Frequency(base, Cast(Per(base, frequency) + 0.5, undefined))
  {
    hide Join, Split, Cast, Per;
    err, ticks := queryErr, Halves(0, 0);
    if err == ERRNO_SUCCESS {
      var minTicks := timer.min.low as real + ((timer.min.high * TWO_32) % TWO_64) as real;
      var maxTicks := timer.max.low as real + ((timer.max.high * TWO_32) % TWO_64) as real;
      assert minTicks == Sum(timer.min) as real && maxTicks == Sum(timer.max) as real;
      if maxTicks != 0.0 && minTicks != 0.0 && timer.base != 0 {
        if frequency == 0.0 || frequency > Per(timer.base, minTicks) {
          freq, ticks := Finite(Per(timer.base, minTicks)), timer.min;
        } else if frequency < Per(timer.base, maxTicks) {
          freq, ticks := Finite(Per(timer.base, maxTicks)), timer.max;
        } else {
          var t := Cast(Per(timer.base, frequency) + 0.5, undefined);
          freq, ticks := Frequency(timer.base, t), Split(t);
        }
      } else {
        freq := Huge;
      }
    } else {
      freq := Finite(0.0);
    }
  }

  // When is the cast defined? The bounds are looked at in the order that makes the rate positive.

  function Lower(timer: Timer): int {
    if timer.base > 0 then Sum(timer.min) else Sum(timer.max)
  }

  function Upper(timer: Timer): int {
    if timer.base > 0 then Sum(timer.max) else Sum(timer.min)
  }

  function Positive(base: int, x: real): real {
    if base > 0 then x else -x
  }

  /** Turning the signs of a negative rate and of the frequency. */
  lemma Turned(timer: Timer, f: real)
    requires Usable(timer) && f != 0.0
    ensures var b, g := Positive(timer.base, timer.base as real), Positive(timer.base, f);
            && b > 0.0 && g != 0.0
            && Per(timer.base, f) == b / g
            && (IsRounded(timer, f) <==> b / Upper(timer) as real <= g <= b / Lower(timer) as real)
  {
    if timer.base < 0 {
      NegateQuotient(timer.base as real, Sum(timer.min) as real);
      NegateQuotient(timer.base as real, Sum(timer.max) as real);
      NegateBoth(timer.base as real, f);
    }
  }

  lemma NegateQuotient(b: real, k: real)
    requires k != 0.0
    ensures -b / k == -(b / k)
  {
  }

  lemma NegateBoth(b: real, f: real)
    requires f != 0.0
    ensures -b / -f == b / f
  {
  }

  /** A positive frequency between the bounds has its ticks between them. */
  lemma PositiveFrequency(b: real, g: real, lower: real, upper: real)
    requires b > 0.0 && g > 0.0 && lower != 0.0 && upper != 0.0 && b / upper <= g <= b / lower
    ensures lower > 0.0 && lower <= b / g
    ensures upper > 0.0 ==> b / g <= upper
  {
    CompareQuotient(b, g, lower);
    CompareQuotient(b, g, upper);
    SignOfQuotient(b, lower);
    CompareQuotient(b, lower, g);
    if upper > 0.0 {
      CompareQuotient(b, upper, g);
    }
  }

  lemma SignOfQuotient(b: real, k: real)
    requires b > 0.0 && k != 0.0
    ensures b / k > 0.0 <==> k > 0.0
  {
  }

  /** A negative one as well. */
  lemma NegativeFrequency(b: real, g: real, lower: real, upper: real)
    requires b > 0.0 && g < 0.0 && lower != 0.0 && upper != 0.0 && b / upper <= g <= b / lower
    ensures upper < 0.0 && b / g <= upper
    ensures lower < 0.0 ==> lower <= b / g
  {
    NegateQuotient(b, -upper);
    NegateQuotient(b, -lower);
    NegateQuotient(b, -g);
    NegateBoth(b, upper);
    NegateBoth(b, lower);
    NegateBoth(b, g);
    PositiveFrequency(b, -g, -upper, -lower);
  }

  /** Timers with an upper bound below zero for which some frequency cannot be converted. */
  predicate Overflows(timer: Timer) {
    Upper(timer) < 0 && (Lower(timer) > 0 || (Lower(timer) <= Upper(timer) && Lower(timer) <= -2))
  }

  lemma DefinedBetween(timer: Timer, f: real)
    requires !Overflows(timer) && IsRounded(timer, f)
    ensures CastDefined(Per(timer.base, f) + 0.5)
    ensures Lower(timer) > 0 && Upper(timer) > 0 ==> Lower(timer) as real <= Per(timer.base, f) <= Upper(timer) as real
  {
    hide Per, Sum;
    var b, g := Positive(timer.base, timer.base as real), Positive(timer.base, f);
    Turned(timer, f);
    if g > 0.0 {
      PositiveFrequency(b, g, Lower(timer) as real, Upper(timer) as real);
    } else {
      NegativeFrequency(b, g, Lower(timer) as real, Upper(timer) as real);
    }
  }

  /** A frequency that cannot be converted. */
  lemma Undefined(timer: Timer) returns (f: real)
    requires Usable(timer) && Overflows(timer)
    ensures IsRounded(timer, f) && !CastDefined(Per(timer.base, f) + 0.5)
  {
    hide Per, Sum;
    var b := Positive(timer.base, timer.base as real);
    var ticks := if Lower(timer) > 0 then TWO_64 else Lower(timer);
    var g := b / ticks as real;
    f := Positive(timer.base, g);
    SignOfQuotient(b, ticks as real);
    SignOfQuotient(b, Upper(timer) as real);
    QuotientOfQuotient(b, ticks as real);
    if Lower(timer) > 0 {
      SmallerQuotient(b, Lower(timer) as real, ticks as real);
    } else {
      NegateQuotient(b, -(ticks as real));
      NegateQuotient(b, -(Upper(timer) as real));
      NegateBoth(b, ticks as real);
      NegateBoth(b, Upper(timer) as real);
      SmallerQuotient(b, -(Upper(timer) as real), -(ticks as real));
    }
    Turned(timer, f);
  }

  lemma QuotientOfQuotient(b: real, k: real)
    requires b > 0.0 && k != 0.0
    ensures b / k != 0.0 && b / (b / k) == k
  {
  }

  lemma SmallerQuotient(b: real, j: real, k: real)
    requires b > 0.0 && 0.0 < j <= k
    ensures b / k <= b / j
  {
  }

  /** Every frequency can be converted exactly if the bounds of the timer are not among these. */
  lemma AlwaysDefined(timer: Timer)
    requires Usable(timer)
    ensures (forall f :: IsRounded(timer, f) ==> CastDefined(Per(timer.base, f) + 0.5)) <==> !Overflows(timer)
  {
    hide Per, Sum, Usable;
    if Overflows(timer) {
      var f := Undefined(timer);
    } else {
      forall f | IsRounded(timer, f) ensures CastDefined(Per(timer.base, f) + 0.5) {
        DefinedBetween(timer, f);
      }
    }
  }

  /** Adding the halves up as doubles gives the number that joining them gives. */
  predicate SameSum(h: Halves) {
    h.low >= 0 || h.high != 0
  }

  lemma SumIsJoin(h: Halves)
    ensures Sum(h) == Join(h) <==> SameSum(h)
    ensures !SameSum(h) ==> Sum(h) == h.low && Join(h) == h.low + TWO_64
  {
    HighPart(h);
  }

  /** For these timers the two conversions agree. */
  predicate Agrees(timer: Timer) {
    || !Usable(timer)
    || (timer.base > 0 && SameSum(timer.min) && SameSum(timer.max))
    || (timer.base < 0 && timer.min == timer.max && SameSum(timer.min))
  }

  predicate AgreesAt(timer: Timer, t: real, undefined: uint64)
    requires t > 0.0
  {
    1.0 / t != 0.0 && TicksForFrequency(timer, 1.0 / t, undefined) == TicksFor(timer, t)
  }

  /** A time and its frequency have the same ticks. */
  lemma FrequencyAgreesWithTime(timer: Timer, t: real, undefined: uint64)
    requires Agrees(timer) && t > 0.0
    ensures AgreesAt(timer, t, undefined)
  {
    hide Join, Split, Per, Cycles, Seconds;
    Reciprocal(t);
    SumIsJoin(timer.min);
    SumIsJoin(timer.max);
    if Usable(timer) && timer.base > 0 {
      SameBranch(timer.base, Join(timer.min), t);
      SameBranch(timer.base, Join(timer.max), t);
      if IsRounded(timer, 1.0 / t) {
        DefinedBetween(timer, 1.0 / t);
        RoundedTicks(timer, t, undefined);
      }
    } else if Usable(timer) {
      NegativeTimes(timer);
      NegativePer(timer.base, Sum(timer.min));
    }
  }

  lemma Reciprocal(t: real)
    requires t > 0.0
    ensures 1.0 / t > 0.0 && 1.0 / (1.0 / t) == t
  {
  }

  lemma RoundedTicks(timer: Timer, t: real, undefined: uint64)
    requires Usable(timer) && timer.base > 0 && t > 0.0 && CastDefined(Per(timer.base, 1.0 / t) + 0.5)
    ensures Cast(Per(timer.base, 1.0 / t) + 0.5, undefined) == Nearest(Cycles(t, timer.base))
  {
    hide Per, Cycles;
    SameBranch(timer.base, 1, t);
    PositiveCycles(t, timer.base);
  }

  lemma PositiveCycles(t: real, base: int)
    requires t > 0.0 && base > 0
    ensures Cycles(t, base) > 0.0
  {
  }

  /** A negative rate makes all times negative. */
  lemma NegativeTimes(timer: Timer)
    requires Usable(timer) && timer.base < 0
    ensures MinTime(timer) < 0.0 && MaxTime(timer) < 0.0
  {
    NegativeSeconds(Join(timer.min), timer.base);
    NegativeSeconds(Join(timer.max), timer.base);
  }

  lemma NegativeSeconds(k: int, base: int)
    requires k > 0 && base < 0
    ensures Seconds(k, base) < 0.0
  {
  }

  lemma NegativePer(base: int, k: int)
    requires base < 0 && k != 0
    ensures k > 0 <==> Per(base, k as real) < 0.0
    ensures k < 0 <==> Per(base, k as real) > 0.0
  {
  }

  lemma PositivePer(base: int, k: int)
    requires base > 0 && k != 0
    ensures k > 0 <==> Per(base, k as real) > 0.0
    ensures k < 0 <==> Per(base, k as real) < 0.0
  {
  }

  /** A time at which the conversions do not agree. */
  lemma Disagreement(timer: Timer) returns (t: real)
    requires !Agrees(timer)
    ensures t > 0.0 && !AgreesAt(timer, t, 0)
  {
    hide Join, Split, Per, Cycles, Seconds;
    SumIsJoin(timer.min);
    SumIsJoin(timer.max);
    if timer.base < 0 {
      t := DisagreementBelow(timer);
    } else if !SameSum(timer.min) && timer.min == timer.max {
      t := DisagreementAtBound(timer);
    } else {
      t := DisagreementAbove(timer);
    }
  }

  /** With a negative rate every time has the greatest number of ticks. */
  lemma DisagreementBelow(timer: Timer) returns (t: real)
    requires !Agrees(timer) && timer.base < 0
    ensures t > 0.0 && !AgreesAt(timer, t, 0)
  {
    hide Join, Split, Per, Seconds, Cycles;
    var base, sum := timer.base, Sum(timer.min);
    SumIsJoin(timer.min);
    NegativeTimes(timer);
    NegativePer(base, sum);
    var bound := Per(base, sum as real);
    var f := if timer.min != timer.max then (if sum > 0 then 1.0 else bound + 1.0) else bound;
    t := 1.0 / f;
    Reciprocal(f);
    if timer.min == timer.max {
      PerOfPer(base, sum as real);
      SplitZero();
    }
  }

  lemma PerOfPer(base: int, k: real)
    requires base != 0 && k != 0.0
    ensures Per(base, k) != 0.0 && Per(base, Per(base, k)) == k
  {
  }

  /** What is cast from a negative number, or where the result is left open and happens to be 0. */
  lemma SplitZero()
    ensures Split(0) == Halves(0, 0) && Cast(0.5 - 1.0, 0) == 0
  {
  }

  /** Both bounds are the same and read as a negative number by one of the conversions: at the bound. */
  lemma DisagreementAtBound(timer: Timer) returns (t: real)
    requires Usable(timer) && timer.base > 0 && timer.min == timer.max && !SameSum(timer.min)
    ensures t > 0.0 && !AgreesAt(timer, t, 0)
  {
    hide Join, Split, Per, Cycles, Seconds;
    var k := Join(timer.min);
    t := Seconds(k, timer.base);
    PositiveSeconds(k, timer.base);
    Reciprocal(t);
    SumIsJoin(timer.min);
    PositivePer(timer.base, Sum(timer.min));
    CompareSeconds(k, timer.base, t);
    NearestOfInt(k);
    SplitJoin(timer.min);
  }

  lemma PositiveSeconds(k: int, base: int)
    requires k > 0 && base > 0
    ensures Seconds(k, base) > 0.0
  {
  }

  /** Otherwise: beyond both bounds, where the time has the greatest number of ticks. */
  lemma DisagreementAbove(timer: Timer) returns (t: real)
    requires Usable(timer) && timer.base > 0 && !(SameSum(timer.min) && SameSum(timer.max))
    requires SameSum(timer.min) || timer.min != timer.max
    ensures t > 0.0 && !AgreesAt(timer, t, 0)
  {
    hide Join, Split, Per, Cycles, Seconds;
    t := Seconds(TWO_64, timer.base);
    PositiveSeconds(TWO_64, timer.base);
    Reciprocal(t);
    SumIsJoin(timer.min);
    SumIsJoin(timer.max);
    PositivePer(timer.base, Sum(timer.min));
    PositivePer(timer.base, Sum(timer.max));
    CompareSeconds(Join(timer.min), timer.base, t);
    CompareSeconds(Join(timer.max), timer.base, t);
    CompareSeconds(TWO_64, timer.base, t);
    SameBranch(timer.base, Join(timer.min), t);
    SplitZero();
  }

  /** The two conversions agree at all times exactly for these timers. */
  lemma FrequencyAgreesExactly(timer: Timer)
    ensures (forall t: real, undefined: uint64 | t > 0.0 :: AgreesAt(timer, t, undefined)) <==> Agrees(timer)
  {
    hide AgreesAt, Agrees;
    if Agrees(timer) {
      forall t: real, undefined: uint64 | t > 0.0 ensures AgreesAt(timer, t, undefined) {
        FrequencyAgreesWithTime(timer, t, undefined);
      }
    } else {
      var t := Disagreement(timer);
    }
  }

  lemma SameBranch(base: int, k: int, t: real)
    requires base > 0 && k > 0 && t > 0.0
    ensures 1.0 / t != 0.0
    ensures 1.0 / t > Per(base, k as real) <==> t < Seconds(k, base)
    ensures 1.0 / t < Per(base, k as real) <==> t > Seconds(k, base)
    ensures Per(base, 1.0 / t) == Cycles(t, base)
  {
  }

  // And back to times.

  /** The ticks in seconds; 0 for a negative low half, or if the timer has no ticks for a second. */
  function TimeBack(timer: Timer, ticks: Halves): real {
    var second := Join(TicksFor(timer, 1.0));
    if ticks.low < 0 || second == 0 then 0.0 else Seconds(Join(ticks), second)
  }

  /** meIOSingleTicksToTime: it asks for the ticks of one second and divides. */
  method SingleTicksToTime(queryErr: int, timer: Timer, ticks: Halves) returns (err: int, time: real)
    ensures err == if ticks.low < 0 then ERRNO_SUCCESS else queryErr
    ensures time == if queryErr == ERRNO_SUCCESS then TimeBack(timer, ticks) else 0.0
  {
    hide Join, TicksFor, Seconds;
    err, time := ERRNO_SUCCESS, 0.0;
    if !(ticks.low < 0 || ticks.low < 0) {  // the second test was meant for the high half
      var nominal, second;
      err, nominal, second := StreamTimeToTicks(queryErr, timer, 1.0);
      if err == ERRNO_SUCCESS {
        var singleSecondTicks := Join(second);
        if singleSecondTicks > 0 {
          time := Seconds(Join(ticks), singleSecondTicks);
        }
      }
    }
  }

  /** The ticks of one second are the rate, within the bounds; joining their halves gives them back. */
  lemma OneSecond(timer: Timer)
    requires Sane(timer)
    ensures TicksOf(timer, 1.0) == Clamp(timer.base, Join(timer.min), Join(timer.max)) && TicksOf(timer, 1.0) > 0
    ensures Join(TicksFor(timer, 1.0)) == TicksOf(timer, 1.0)
  {
    hide Join, Split, Seconds, Nearest, TicksFor;
    assert Cycles(1.0, timer.base) == timer.base as real;
    NearestOfInt(timer.base);
    TimeIsClampedRounding(timer, 1.0);
    SplitJoin(timer.min);
    SplitJoin(timer.max);
    NoBit31(timer.min);
    NoBit31(timer.max);
    JoinSplit(TicksOf(timer, 1.0));
    SmallHasNoBit31(timer.base);
  }

  lemma NoBit31(h: Halves)
    requires h.low >= 0
    ensures !Bit31(Join(h))
  {
  }

  lemma SmallHasNoBit31(t: int)
    requires 0 <= t < 0x8000_0000
    ensures !Bit31(t)
  {
  }

  /** Ticks go back to the time that StreamTimeToTicks achieved exactly if the timer can count one second and the low
      half of the ticks is not negative. */
  lemma TicksToTimeRoundTrip(timer: Timer, time: real)
    requires Sane(timer)
    ensures var t := TicksOf(timer, time);
            TimeBack(timer, Split(t)) == TimeOf(timer, t)
            <==> Join(timer.min) <= timer.base <= Join(timer.max) && !Bit31(t)
  {
    hide Join, Split, Bit31, Seconds, TicksFor, TicksOf, Nearest, Cycles;
    var t, second := TicksOf(timer, time), TicksOf(timer, 1.0);
    OneSecond(timer);
    JoinSplit(t);
    LowHalf(t);
    SecondsDiffer(t, second, timer.base);
  }

  lemma LowHalf(t: uint64)
    ensures Split(t).low < 0 <==> Bit31(t)
  {
  }

  lemma SecondsDiffer(t: int, a: int, b: int)
    requires t > 0 && a > 0 && b > 0
    ensures Seconds(t, b) > 0.0
    ensures Seconds(t, a) == Seconds(t, b) <==> a == b
  {
  }

  // In numbers.

  /** A time and its cycles, a number of ticks and the seconds and the frequency it stands for. */
  lemma TermsInNumbers(base: int, ticks: int, time: real, frequency: real)
    requires base != 0 && ticks != 0 && frequency != 0.0
    ensures Cycles(time, base) == time * base as real
    ensures Seconds(ticks, base) * base as real == ticks as real
    ensures Per(base, frequency) * frequency == base as real
    ensures Per(base, ticks as real) == 1.0 / Seconds(ticks, base)
  {
  }

  /** The frequency that is achieved, times the ticks, is the rate; it belongs to the time that these ticks take.
      Without ticks it is infinite, with the sign of the rate. */
  lemma AchievedFrequency(base: int, ticks: uint64)
    requires base != 0
    ensures ticks != 0 ==> Frequency(base, ticks).Finite? && Frequency(base, ticks).r * ticks as real == base as real
    ensures ticks != 0 ==> Seconds(ticks, base) * Frequency(base, ticks).r == 1.0
    ensures ticks == 0 ==> Frequency(base, ticks) == if base < 0 then MinusHuge else Huge
  {
    if ticks != 0 {
      TermsInNumbers(base, ticks, 0.0, 1.0);
      QuotientTimes(base as real, ticks as real);
    }
  }

  lemma QuotientTimes(b: real, k: real)
    requires b != 0.0 && k != 0.0
    ensures b / k * k == b && k / b * (b / k) == 1.0
  {
    var p, q := b / k, k / b;
    assert p * k == b && q * b == k;
    assert q * p * k == q * (p * k);
    assert (q * p - 1.0) * k == 0.0;
  }

  /** The ticks for a time: the bound that is exceeded, or the nearest number, a half being rounded up. */
  lemma TimeTicksInNumbers(timer: Timer, time: real)
    requires Sane(timer)
    ensures var x, t := time * timer.base as real, TicksOf(timer, time);
            && (x < Join(timer.min) as real ==> t == Join(timer.min) && TicksFor(timer, time) == timer.min)
            && (x > Join(timer.max) as real ==> t == Join(timer.max) && TicksFor(timer, time) == timer.max)
            && (Join(timer.min) as real <= x <= Join(timer.max) as real ==>
                  t as real - 0.5 <= x < t as real + 0.5 && TicksFor(timer, time) == Split(t))
  {
    hide Join, Split, Seconds, Nearest;
    CompareSeconds(Join(timer.min), timer.base, time);
    CompareSeconds(Join(timer.max), timer.base, time);
    TimeIsClampedRounding(timer, time);
    NearestHalf(Cycles(time, timer.base));
  }

  lemma NearestHalf(x: real)
    ensures Nearest(x) as real - 0.5 <= x < Nearest(x) as real + 0.5
  {
  }

  /** The ticks for a frequency: the least number above the greatest frequency and for 0, the greatest number below the
      least frequency, which includes all negative ones, and else the number nearest to rate over frequency, a half
      being rounded up. */
  lemma FrequencyTicksInNumbers(timer: Timer, f: real, undefined: uint64) returns (k: uint64)
    requires Sane(timer)
    ensures var base, min, max := timer.base as real, Join(timer.min) as real, Join(timer.max) as real;
            && (f == 0.0 || f > base / min ==> TicksForFrequency(timer, f, undefined) == timer.min)
            && (f != 0.0 && f < base / max ==> TicksForFrequency(timer, f, undefined) == timer.max)
            && (f != 0.0 && base / max <= f <= base / min ==>
                  && TicksForFrequency(timer, f, undefined) == Split(k)
                  && k as real - 0.5 <= base / f < k as real + 0.5)
  {
    hide Join, Split, Cast, Sum;
    var base, min, max := timer.base, Join(timer.min), Join(timer.max);
    k := 0;
    SumIsJoin(timer.min);
    SumIsJoin(timer.max);
    SmallerQuotient(base as real, min as real, max as real);
    if f != 0.0 && base as real / max as real <= f <= base as real / min as real {
      DefinedBetween(timer, f);
      k := Cast(Per(base, f) + 0.5, undefined);
      CastInNumbers(Per(base, f) + 0.5, undefined);
    }
  }

  /** What a cast to an unsigned number gives. */
  lemma CastInNumbers(x: real, undefined: uint64)
    ensures -1.0 < x < 0.0 ==> Cast(x, undefined) == 0
    ensures 0.0 <= x < 18446744073709551616.0 ==> Cast(x, undefined) as real <= x < Cast(x, undefined) as real + 1.0
    ensures x <= -1.0 || x >= 18446744073709551616.0 ==> Cast(x, undefined) == undefined
  {
  }

  /** The time for a number of ticks, times the ticks of one second, is the number; these are the rate or the bound it
      exceeds. */
  lemma TimeBackInNumbers(timer: Timer, ticks: Halves)
    requires Sane(timer)
    ensures ticks.low < 0 ==> TimeBack(timer, ticks) == 0.0
    ensures ticks.low >= 0 ==>
              TimeBack(timer, ticks)
                * (if timer.base < Join(timer.min) then Join(timer.min)
                   else if timer.base > Join(timer.max) then Join(timer.max) else timer.base) as real
              == Join(ticks) as real
  {
    hide Join, TicksFor, TicksOf, Seconds;
    OneSecond(timer);
    CompareSeconds(Join(ticks), TicksOf(timer, 1.0), 0.0);
  }
}
