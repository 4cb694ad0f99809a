/** 64-bit tick counts as pairs of signed 32-bit halves. */
module Ticks {
  import opened Defines

  datatype Halves = Halves(low: int32, high: int32)

  /** (uint64_t)low + ((uint64_t)high << 32): both conversions extend the sign. */
  function Join(h: Halves): uint64 {
    (h.low + h.high * TWO_32) % TWO_64
  }

  function ToSigned(x: int): int32
    requires 0 <= x < TWO_32
  {
    if x < 0x8000_0000 then x else x - TWO_32
  }

  /** Assigning ticks and ticks >> 32 to two ints. */
  function Split(t: uint64): Halves {
    Halves(ToSigned(t % TWO_32), ToSigned(t / TWO_32))
  }

  predicate Bit31(t: uint64) {
    t % TWO_32 >= 0x8000_0000
  }

  lemma JoinParts(a: nat, b: nat)
    requires a < TWO_32 && b < TWO_32
    ensures Join(Halves(ToSigned(a), ToSigned(b))) == if a < 0x8000_0000 then a + b * TWO_32
            else (a + b * TWO_32 - TWO_32) % TWO_64
  {
  }

  /** Splitting and joining loses 2^32 exactly when bit 31 is set. */
  lemma JoinSplit(t: uint64)
    ensures Join(Split(t)) == if Bit31(t) then (t - TWO_32) % TWO_64 else t
    ensures Join(Split(t)) == t <==> !Bit31(t)
  {
    JoinParts(t % TWO_32, t / TWO_32);
  }

  /** Joining and splitting keeps a pair exactly when its low half is not negative. */
  lemma SplitJoin(h: Halves)
    ensures Split(Join(h)) == h <==> h.low >= 0
    ensures Split(Join(h)).low == h.low
  {
    var x: int := h.low + h.high * TWO_32;
    var t := Join(h);
    var k := x / TWO_64;
    assert t == x - k * TWO_64;
    if h.low >= 0 {
      var hi := if h.high >= 0 then h.high else h.high + TWO_32;
      assert t == h.low + hi * TWO_32;
      assert t / TWO_32 == hi && t % TWO_32 == h.low;
    } else {
      var hi := if h.high >= 1 then h.high - 1 else h.high - 1 + TWO_32;
      assert t == (h.low + TWO_32) + hi * TWO_32;
      assert t / TWO_32 == hi && t % TWO_32 == h.low + TWO_32;
    }
  }

  /** In numbers: joining keeps the sum of the halves modulo 2^64, and splitting keeps each half modulo 2^32. */
  lemma TicksInNumbers(h: Halves, t: uint64)
    ensures 0 <= Join(h) < 0x1_0000_0000_0000_0000
    ensures exists k :: h.low + h.high * 0x1_0000_0000 == Join(h) + k * 0x1_0000_0000_0000_0000
    ensures Split(t).low == if t % 0x1_0000_0000 < 0x8000_0000 then t % 0x1_0000_0000
            else t % 0x1_0000_0000 - 0x1_0000_0000
    ensures Split(t).high == if t < 0x8000_0000_0000_0000 then t / 0x1_0000_0000 else t / 0x1_0000_0000 - 0x1_0000_0000
  {
    var x := h.low + h.high * TWO_32;
    assert x == Join(h) + (x / TWO_64) * TWO_64;
  }
}

/** Stream triggers in the form of the interface and in the form of the driver:
    library/meids_internal.c, me_translate_triggers_to_simple and me_translate_triggers_to_unversal. */
module Triggers {
  import opened Defines
  import opened Ticks

  const TRIG_NONE := 0x00000000
  const TRIG_SW := 0x00080001
  const TRIG_EXT_DIGITAL := 0x00080006
  const TRIG_EXT_ANALOG := 0x00080007
  const TRIG_TIMER := 0x00080009
  const TRIG_COUNT := 0x0008000A
  const TRIG_FOLLOW := 0x0008000B

  const TYPE_SOFTWARE := 0x00
  const TYPE_ACQ_DIGITAL := 0x01
  const TYPE_LIST_DIGITAL := 0x02
  const TYPE_CONV_DIGITAL := 0x04
  const TYPE_ACQ_ANALOG := 0x11
  const TYPE_LIST_ANALOG := 0x12
  const TYPE_CONV_ANALOG := 0x14

  const STOP_MANUAL := 0x00000000
  const STOP_ACQ_LIST := 0x000A1001
  const STOP_SCAN_VALUE := 0x000A1002

  type Args = s: seq<int32> | |s| == 10 witness [0, 0, 0, 0, 0, 0, 0, 0, 0, 0]

  /** meIOStreamTrigger_t without the argument lists of scan and conversion start, which are never looked at. */
  datatype LongTriggers = LongTriggers(
    acqType: int, acqEdge: int, acqChan: int, acqTicks: Halves, acqArgs: Args,
    scanType: int, scanTicks: Halves, convType: int, convTicks: Halves,
    scanStopType: int, scanStopCount: int, scanStopArgs: Args,
    acqStopType: int, acqStopCount: int, acqStopArgs: Args, flags: int)

  /** meIOStreamSimpleTriggers_t. */
  datatype SimpleTriggers = SimpleTriggers(
    triggerType: int, triggerEdge: int, levelLower: int32, levelUpper: int32, triggerPoint: int32,
    acqTicks: uint64, scanTicks: uint64, convTicks: uint64, synchro: int, stopType: int, stopCount: int)

  /** A struct behind a pointer. */
  class Struct<T> {
    var v: T

    constructor (v: T)
      ensures this.v == v
    {
      this.v := v;
    }
  }

  // What is accepted.

  /** The 14 start combinations. Software starts are timed; an external start of either kind may be followed by scans
      by timer, at once or by the same trigger, and by conversions by timer or by the same trigger. */
  predicate StartAccepted(acq: int, scan: int, conv: int) {
    if acq == TRIG_SW then conv == TRIG_TIMER && scan in {TRIG_TIMER, TRIG_FOLLOW}
    else
      && acq in {TRIG_EXT_DIGITAL, TRIG_EXT_ANALOG}
      && conv in {TRIG_TIMER, acq}
      && scan in {TRIG_TIMER, TRIG_FOLLOW, acq}
  }

  predicate StopAccepted(l: LongTriggers) {
    || (l.scanStopType == TRIG_NONE && l.acqStopType == TRIG_NONE)
    || (l.scanStopType == TRIG_NONE && l.acqStopType == TRIG_COUNT && l.acqStopCount > 0)
    || (l.scanStopType == TRIG_COUNT && l.acqStopType == TRIG_FOLLOW && l.scanStopCount > 0)
  }

  predicate Accepted(l: LongTriggers) {
    && StartAccepted(l.acqType, l.scanType, l.convType)
    && (Join(l.scanTicks) != 0 <==> l.scanType == TRIG_TIMER)
    && l.flags == 0
    && StopAccepted(l)
  }

  /** Which error is reported when several apply. */
  function ErrorOf(l: LongTriggers): int {
    if !StartAccepted(l.acqType, l.scanType, l.convType) then ERRNO_INVALID_ACQ_START_TRIG_TYPE
    else if (Join(l.scanTicks) != 0) != (l.scanType == TRIG_TIMER) then ERRNO_INVALID_SCAN_START_ARG
    else if l.flags != 0 then ERRNO_INVALID_FLAGS
    else if l.scanStopType !in {TRIG_NONE, TRIG_COUNT} then ERRNO_INVALID_SCAN_STOP_TRIG_TYPE
    else if l.scanStopType == TRIG_COUNT && l.scanStopCount <= 0 then ERRNO_INVALID_SCAN_STOP_ARG
    else if (l.scanStopType == TRIG_COUNT) != (l.acqStopType == TRIG_FOLLOW) then ERRNO_INVALID_ACQ_STOP_TRIG_TYPE
    else if l.acqStopType == TRIG_COUNT && l.acqStopCount <= 0 then ERRNO_INVALID_ACQ_STOP_ARG
    else if l.acqStopType !in {TRIG_NONE, TRIG_COUNT, TRIG_FOLLOW} then ERRNO_INVALID_ACQ_STOP_TRIG_TYPE
    else ERRNO_SUCCESS
  }

  // What it is translated to.

  /** The conversion types come out crossed: a digital start gives CONV_ANALOG and an analog one CONV_DIGITAL. */
  function TypeOf(acq: int, scan: int, conv: int): int {
    if acq == TRIG_SW then TYPE_SOFTWARE
    else if conv == acq then (if acq == TRIG_EXT_DIGITAL then TYPE_CONV_ANALOG else TYPE_CONV_DIGITAL)
    else if scan == acq then (if acq == TRIG_EXT_DIGITAL then TYPE_LIST_DIGITAL else TYPE_LIST_ANALOG)
    else if acq == TRIG_EXT_DIGITAL then TYPE_ACQ_DIGITAL
    else TYPE_ACQ_ANALOG
  }

  function SimpleOf(l: LongTriggers): SimpleTriggers {
    var list, value := l.acqStopType == TRIG_COUNT, l.acqStopType == TRIG_FOLLOW;
    SimpleTriggers(
      TypeOf(l.acqType, l.scanType, l.convType), l.acqEdge, l.acqArgs[1], l.acqArgs[0],
      if list then l.acqStopArgs[0] else if value then l.scanStopArgs[0] else 0,
      Join(l.acqTicks), Join(l.scanTicks), Join(l.convTicks), l.acqChan,
      if list then STOP_ACQ_LIST else if value then STOP_SCAN_VALUE else STOP_MANUAL,
      if list then l.acqStopCount else if value then l.scanStopCount else 0)
  }

  /** The first if-chain: is the start triple accepted, and are there scan ticks exactly when it needs them? */
  method CheckStart(long: Struct<LongTriggers>, scanTicks: uint64) returns (err: int)
    ensures err == if !StartAccepted(long.v.acqType, long.v.scanType, long.v.convType)
            then ERRNO_INVALID_ACQ_START_TRIG_TYPE
                   else if (scanTicks != 0) != (long.v.scanType == TRIG_TIMER) then ERRNO_INVALID_SCAN_START_ARG
                   else ERRNO_SUCCESS
  {
    err := ERRNO_SUCCESS;
    if long.v.acqType == TRIG_SW && long.v.scanType == TRIG_TIMER && long.v.convType == TRIG_TIMER {
      if scanTicks == 0 { return ERRNO_INVALID_SCAN_START_ARG; }
    } else if long.v.acqType == TRIG_SW && long.v.scanType == TRIG_FOLLOW && long.v.convType == TRIG_TIMER {
      if scanTicks != 0 { return ERRNO_INVALID_SCAN_START_ARG; }
    } else if long.v.acqType == TRIG_EXT_DIGITAL && long.v.scanType == TRIG_TIMER && long.v.convType == TRIG_TIMER {
      if scanTicks == 0 { return ERRNO_INVALID_SCAN_START_ARG; }
    } else if long.v.acqType == TRIG_EXT_ANALOG && long.v.scanType == TRIG_TIMER && long.v.convType == TRIG_TIMER {
      if scanTicks == 0 { return ERRNO_INVALID_SCAN_START_ARG; }
    } else if long.v.acqType == TRIG_EXT_DIGITAL && long.v.scanType == TRIG_FOLLOW && long.v.convType == TRIG_TIMER {
      if scanTicks != 0 { return ERRNO_INVALID_SCAN_START_ARG; }
    } else if long.v.acqType == TRIG_EXT_ANALOG && long.v.scanType == TRIG_FOLLOW && long.v.convType == TRIG_TIMER {
      if scanTicks != 0 { return ERRNO_INVALID_SCAN_START_ARG; }
    } else if (long.v.acqType, long.v.scanType, long.v.convType) == (TRIG_EXT_DIGITAL, TRIG_EXT_DIGITAL, TRIG_TIMER) {
      if scanTicks != 0 { return ERRNO_INVALID_SCAN_START_ARG; }
    } else if long.v.acqType == TRIG_EXT_ANALOG && long.v.scanType == TRIG_EXT_ANALOG && long.v.convType == TRIG_TIMER {
      if scanTicks != 0 { return ERRNO_INVALID_SCAN_START_ARG; }
    } else if (long.v.acqType, long.v.scanType, long.v.convType)
        == (TRIG_EXT_DIGITAL, TRIG_EXT_DIGITAL, TRIG_EXT_DIGITAL) {
      if scanTicks != 0 { return ERRNO_INVALID_SCAN_START_ARG; }
    } else if (long.v.acqType, long.v.scanType, long.v.convType)
        == (TRIG_EXT_ANALOG, TRIG_EXT_ANALOG, TRIG_EXT_ANALOG) {
      if scanTicks != 0 { return ERRNO_INVALID_SCAN_START_ARG; }
    } else if (long.v.acqType, long.v.scanType, long.v.convType) == (TRIG_EXT_DIGITAL, TRIG_TIMER, TRIG_EXT_DIGITAL) {
      if scanTicks == 0 { return ERRNO_INVALID_SCAN_START_ARG; }
    } else if long.v.acqType == TRIG_EXT_ANALOG && long.v.scanType == TRIG_TIMER && long.v.convType == TRIG_EXT_ANALOG {
      if scanTicks == 0 { return ERRNO_INVALID_SCAN_START_ARG; }
    } else if (long.v.acqType, long.v.scanType, long.v.convType) == (TRIG_EXT_DIGITAL, TRIG_FOLLOW, TRIG_EXT_DIGITAL) {
      if scanTicks != 0 { return ERRNO_INVALID_SCAN_START_ARG; }
    } else if (long.v.acqType, long.v.scanType, long.v.convType) == (TRIG_EXT_ANALOG, TRIG_FOLLOW, TRIG_EXT_ANALOG) {
      if scanTicks != 0 { return ERRNO_INVALID_SCAN_START_ARG; }
    } else {
      return ERRNO_INVALID_ACQ_START_TRIG_TYPE;
    }
  }

  /** Flags and stop conditions. */
  method CheckStop(long: Struct<LongTriggers>) returns (err: int)
    requires StartAccepted(long.v.acqType, long.v.scanType, long.v.convType)
    requires Join(long.v.scanTicks) != 0 <==> long.v.scanType == TRIG_TIMER
    ensures err == ErrorOf(long.v)
  {
    if long.v.flags != 0 {
      return ERRNO_INVALID_FLAGS;
    }
    if long.v.scanStopType == TRIG_NONE {
    } else if long.v.scanStopType == TRIG_COUNT {
      if long.v.scanStopCount <= 0 {
        return ERRNO_INVALID_SCAN_STOP_ARG;
      }
    } else {
      return ERRNO_INVALID_SCAN_STOP_TRIG_TYPE;
    }
    if long.v.acqStopType == TRIG_NONE {
      if long.v.scanStopType != TRIG_NONE {
        return ERRNO_INVALID_ACQ_STOP_TRIG_TYPE;
      }
    } else if long.v.acqStopType == TRIG_FOLLOW {
      if long.v.scanStopType != TRIG_COUNT {
        return ERRNO_INVALID_ACQ_STOP_TRIG_TYPE;
      }
    } else if long.v.acqStopType == TRIG_COUNT {
      if long.v.scanStopType != TRIG_NONE {
        return ERRNO_INVALID_ACQ_STOP_TRIG_TYPE;
      }
      if long.v.acqStopCount <= 0 {
        return ERRNO_INVALID_ACQ_STOP_ARG;
      }
    } else {
      return ERRNO_INVALID_ACQ_STOP_TRIG_TYPE;
    }
    return ERRNO_SUCCESS;
  }

  /** The second if-chain, which has no else branch: it must not be left without having assigned the type. */
  method AssignType(long: Struct<LongTriggers>, simple: Struct<SimpleTriggers>)
    requires StartAccepted(long.v.acqType, long.v.scanType, long.v.convType)
    modifies simple
    ensures simple.v == old(simple.v).(triggerType := TypeOf(long.v.acqType, long.v.scanType, long.v.convType))
  {
    if long.v.acqType == TRIG_SW && long.v.scanType == TRIG_TIMER && long.v.convType == TRIG_TIMER {
      simple.v := simple.v.(triggerType := TYPE_SOFTWARE);
    } else if long.v.acqType == TRIG_SW && long.v.scanType == TRIG_FOLLOW && long.v.convType == TRIG_TIMER {
      simple.v := simple.v.(triggerType := TYPE_SOFTWARE);
    } else if long.v.acqType == TRIG_EXT_DIGITAL && long.v.scanType == TRIG_TIMER && long.v.convType == TRIG_TIMER {
      simple.v := simple.v.(triggerType := TYPE_ACQ_DIGITAL);
    } else if long.v.acqType == TRIG_EXT_ANALOG && long.v.scanType == TRIG_TIMER && long.v.convType == TRIG_TIMER {
      simple.v := simple.v.(triggerType := TYPE_ACQ_ANALOG);
    } else if long.v.acqType == TRIG_EXT_DIGITAL && long.v.scanType == TRIG_FOLLOW && long.v.convType == TRIG_TIMER {
      simple.v := simple.v.(triggerType := TYPE_ACQ_DIGITAL);
    } else if long.v.acqType == TRIG_EXT_ANALOG && long.v.scanType == TRIG_FOLLOW && long.v.convType == TRIG_TIMER {
      simple.v := simple.v.(triggerType := TYPE_ACQ_ANALOG);
    } else if (long.v.acqType, long.v.scanType, long.v.convType) == (TRIG_EXT_DIGITAL, TRIG_EXT_DIGITAL, TRIG_TIMER) {
      simple.v := simple.v.(triggerType := TYPE_LIST_DIGITAL);
    } else if long.v.acqType == TRIG_EXT_ANALOG && long.v.scanType == TRIG_EXT_ANALOG && long.v.convType == TRIG_TIMER {
      simple.v := simple.v.(triggerType := TYPE_LIST_ANALOG);
    } else if (long.v.acqType, long.v.scanType, long.v.convType)
        == (TRIG_EXT_DIGITAL, TRIG_EXT_DIGITAL, TRIG_EXT_DIGITAL) {
      simple.v := simple.v.(triggerType := TYPE_CONV_ANALOG);
    } else if (long.v.acqType, long.v.scanType, long.v.convType)
        == (TRIG_EXT_ANALOG, TRIG_EXT_ANALOG, TRIG_EXT_ANALOG) {
      simple.v := simple.v.(triggerType := TYPE_CONV_DIGITAL);
    } else if (long.v.acqType, long.v.scanType, long.v.convType) == (TRIG_EXT_DIGITAL, TRIG_TIMER, TRIG_EXT_DIGITAL) {
      simple.v := simple.v.(triggerType := TYPE_CONV_ANALOG);
    } else if long.v.acqType == TRIG_EXT_ANALOG && long.v.scanType == TRIG_TIMER && long.v.convType == TRIG_EXT_ANALOG {
      simple.v := simple.v.(triggerType := TYPE_CONV_DIGITAL);
    } else if (long.v.acqType, long.v.scanType, long.v.convType) == (TRIG_EXT_DIGITAL, TRIG_FOLLOW, TRIG_EXT_DIGITAL) {
      simple.v := simple.v.(triggerType := TYPE_CONV_ANALOG);
    } else if (long.v.acqType, long.v.scanType, long.v.convType) == (TRIG_EXT_ANALOG, TRIG_FOLLOW, TRIG_EXT_ANALOG) {
      simple.v := simple.v.(triggerType := TYPE_CONV_DIGITAL);
    }
  }

  /** me_translate_triggers_to_simple. The result does not depend on what `simple` held before. */
  method ToSimple(long: Struct<LongTriggers>, simple: Struct<SimpleTriggers>) returns (err: int)
    modifies simple
    ensures err == ErrorOf(long.v)
    ensures err == ERRNO_SUCCESS <==> Accepted(long.v)
    ensures simple.v == if err == ERRNO_SUCCESS then SimpleOf(long.v) else old(simple.v)
  {
    var acqTicks, scanTicks, convTicks := Join(long.v.acqTicks), Join(long.v.scanTicks), Join(long.v.convTicks);
    err := CheckStart(long, scanTicks);
    if err != ERRNO_SUCCESS { return; }
    err := CheckStop(long);
    if err != ERRNO_SUCCESS { return; }
    simple.v := simple.v.(triggerEdge := long.v.acqEdge, synchro := long.v.acqChan);
    simple.v := simple.v.(acqTicks := acqTicks, scanTicks := scanTicks, convTicks := convTicks);
    AssignType(long, simple);
    if long.v.scanStopType == TRIG_NONE && long.v.acqStopType == TRIG_NONE {
      simple.v := simple.v.(stopType := STOP_MANUAL, stopCount := 0, triggerPoint := 0);
    } else if long.v.scanStopType == TRIG_NONE && long.v.acqStopType == TRIG_COUNT {
      simple.v := simple.v.(stopType := STOP_ACQ_LIST, stopCount := long.v.acqStopCount,
                            triggerPoint := long.v.acqStopArgs[0]);
    } else if long.v.scanStopType == TRIG_COUNT && long.v.acqStopType == TRIG_FOLLOW {
      simple.v := simple.v.(stopType := STOP_SCAN_VALUE, stopCount := long.v.scanStopCount,
                            triggerPoint := long.v.scanStopArgs[0]);
    }
    simple.v := simple.v.(levelUpper := long.v.acqArgs[0], levelLower := long.v.acqArgs[1]);
  }

  // And back.

  function ScanTypeFor(ticks: uint64): int {
    if ticks != 0 then TRIG_TIMER else TRIG_FOLLOW
  }

  /** The start triple of a type; an unknown type leaves the triple as it was. */
  function StartOf(s: SimpleTriggers, l: LongTriggers): (int, int, int) {
    if s.triggerType == TYPE_SOFTWARE then (TRIG_SW, ScanTypeFor(s.scanTicks), TRIG_TIMER)
    else if s.triggerType == TYPE_ACQ_DIGITAL then (TRIG_EXT_DIGITAL, ScanTypeFor(s.scanTicks), TRIG_TIMER)
    else if s.triggerType == TYPE_ACQ_ANALOG then (TRIG_EXT_ANALOG, ScanTypeFor(s.scanTicks), TRIG_TIMER)
    else if s.triggerType == TYPE_LIST_DIGITAL then (TRIG_EXT_DIGITAL, TRIG_EXT_DIGITAL, TRIG_TIMER)
    else if s.triggerType == TYPE_LIST_ANALOG then (TRIG_EXT_ANALOG, TRIG_EXT_ANALOG, TRIG_TIMER)
    else if s.triggerType == TYPE_CONV_DIGITAL then (TRIG_EXT_DIGITAL, TRIG_EXT_DIGITAL, TRIG_EXT_DIGITAL)
    else if s.triggerType == TYPE_CONV_ANALOG then (TRIG_EXT_ANALOG, TRIG_EXT_ANALOG, TRIG_EXT_ANALOG)
    else (l.acqType, l.scanType, l.convType)
  }

  /** What the driver form `s` becomes when it is written over `l`. */
  function LongOf(s: SimpleTriggers, l: LongTriggers): LongTriggers {
    var (acq, scan, conv) := StartOf(s, l);
    var list, value := s.stopType == STOP_ACQ_LIST, s.stopType == STOP_SCAN_VALUE;
    l.(acqType := acq, scanType := scan, convType := conv,
       acqTicks := Split(s.acqTicks), scanTicks := Split(s.scanTicks), convTicks := Split(s.convTicks),
       scanStopType := if value then TRIG_COUNT else TRIG_NONE,
       acqStopType := if list then TRIG_COUNT else if value then TRIG_FOLLOW else TRIG_NONE,
       acqStopCount := if list then s.stopCount else 0,
       scanStopCount := if value then s.stopCount else 0,
       acqArgs := l.acqArgs[0 := s.levelUpper][1 := s.levelLower],
       scanStopArgs := l.scanStopArgs[0 := s.triggerPoint])
  }

  /** The switch over the trigger type. */
  method AssignStart(simple: Struct<SimpleTriggers>, long: Struct<LongTriggers>)
    modifies long
    ensures var (acq, scan, conv) := StartOf(simple.v, old(long.v));
            long.v == old(long.v).(acqType := acq, scanType := scan, convType := conv)
  {
    var t := simple.v.triggerType;
    if t == TYPE_SOFTWARE {
      long.v := long.v.(acqType := TRIG_SW, scanType := ScanTypeFor(simple.v.scanTicks), convType := TRIG_TIMER);
    } else if t == TYPE_ACQ_DIGITAL {
      long.v := long.v.(acqType := TRIG_EXT_DIGITAL, scanType := ScanTypeFor(simple.v.scanTicks),
                        convType := TRIG_TIMER);
    } else if t == TYPE_ACQ_ANALOG {
      long.v := long.v.(acqType := TRIG_EXT_ANALOG, scanType := ScanTypeFor(simple.v.scanTicks),
                        convType := TRIG_TIMER);
    } else if t == TYPE_LIST_DIGITAL {
      long.v := long.v.(acqType := TRIG_EXT_DIGITAL, scanType := TRIG_EXT_DIGITAL, convType := TRIG_TIMER);
    } else if t == TYPE_LIST_ANALOG {
      long.v := long.v.(acqType := TRIG_EXT_ANALOG, scanType := TRIG_EXT_ANALOG, convType := TRIG_TIMER);
    } else if t == TYPE_CONV_DIGITAL {
      long.v := long.v.(acqType := TRIG_EXT_DIGITAL, scanType := TRIG_EXT_DIGITAL, convType := TRIG_EXT_DIGITAL);
    } else if t == TYPE_CONV_ANALOG {
      long.v := long.v.(acqType := TRIG_EXT_ANALOG, scanType := TRIG_EXT_ANALOG, convType := TRIG_EXT_ANALOG);
    }
  }

  /** me_translate_triggers_to_unversal. Edge and synchronisation channel are copied the other way, into `simple`. */
  method ToUniversal(simple: Struct<SimpleTriggers>, long: Struct<LongTriggers>) returns (err: int)
    modifies simple, long
    ensures long.v == LongOf(old(simple.v), old(long.v))
    ensures simple.v == old(simple.v).(triggerEdge := old(long.v).acqEdge, synchro := old(long.v).acqChan)
    ensures err == if old(simple.v).stopType in {STOP_MANUAL, STOP_ACQ_LIST, STOP_SCAN_VALUE} then ERRNO_SUCCESS
            else ERRNO_INVALID_SCAN_STOP_TRIG_TYPE
  {
    hide Split, StartOf;
    err := ERRNO_SUCCESS;
    AssignStart(simple, long);
    simple.v := simple.v.(triggerEdge := long.v.acqEdge, synchro := long.v.acqChan);
    long.v := long.v.(acqTicks := Split(simple.v.acqTicks));
    long.v := long.v.(scanTicks := Split(simple.v.scanTicks));
    long.v := long.v.(convTicks := Split(simple.v.convTicks));
    if simple.v.stopType == STOP_MANUAL {
      long.v := long.v.(scanStopType := TRIG_NONE, acqStopType := TRIG_NONE, acqStopCount := 0, scanStopCount := 0);
    } else if simple.v.stopType == STOP_ACQ_LIST {
      long.v := long.v.(scanStopType := TRIG_NONE, acqStopType := TRIG_COUNT, acqStopCount := simple.v.stopCount,
                        scanStopCount := 0);
    } else if simple.v.stopType == STOP_SCAN_VALUE {
      long.v := long.v.(scanStopType := TRIG_COUNT, acqStopType := TRIG_FOLLOW, acqStopCount := 0,
                        scanStopCount := simple.v.stopCount);
    } else {
      long.v := long.v.(scanStopType := TRIG_NONE, acqStopType := TRIG_NONE, acqStopCount := 0, scanStopCount := 0);
      err := ERRNO_INVALID_SCAN_STOP_TRIG_TYPE;
    }
    long.v := long.v.(acqArgs := long.v.acqArgs[0 := simple.v.levelUpper]);
    long.v := long.v.(acqArgs := long.v.acqArgs[1 := simple.v.levelLower]);
    long.v := long.v.(scanStopArgs := long.v.scanStopArgs[0 := simple.v.triggerPoint]);
  }

  // What a round trip keeps, for every accepted trigger and whatever struct `into` it is written back to.

  /** The start triple comes back exactly if conversions are by timer: the crossed conversion types name the other
      kind of trigger. */
  lemma StartRoundTrip(l: LongTriggers, into: LongTriggers)
    requires Accepted(l)
    ensures var u := LongOf(SimpleOf(l), into);
            (u.acqType, u.scanType, u.convType) == (l.acqType, l.scanType, l.convType) <==> l.convType == TRIG_TIMER
  {
  }

  /** Each pair of ticks comes back exactly if its low half is not negative. */
  lemma TicksRoundTrip(l: LongTriggers, into: LongTriggers)
    ensures var u := LongOf(SimpleOf(l), into);
            && (u.acqTicks == l.acqTicks <==> l.acqTicks.low >= 0)
            && (u.scanTicks == l.scanTicks <==> l.scanTicks.low >= 0)
            && (u.convTicks == l.convTicks <==> l.convTicks.low >= 0)
  {
    SplitJoin(l.acqTicks);
    SplitJoin(l.scanTicks);
    SplitJoin(l.convTicks);
  }

  /** The stop pair, the count in use and both levels always come back; the other count is cleared. The argument of
      the stop condition comes back in the scan list, and edge and channel do not come back at all. */
  lemma StopRoundTrip(l: LongTriggers, into: LongTriggers)
    requires Accepted(l)
    ensures var u := LongOf(SimpleOf(l), into);
            && u.scanStopType == l.scanStopType && u.acqStopType == l.acqStopType
            && u.acqStopCount == (if l.acqStopType == TRIG_COUNT then l.acqStopCount else 0)
            && u.scanStopCount == (if l.scanStopType == TRIG_COUNT then l.scanStopCount else 0)
            && u.acqArgs[..2] == l.acqArgs[..2]
            && u.scanStopArgs[0] == (if l.acqStopType == TRIG_COUNT then l.acqStopArgs[0]
                                     else if l.acqStopType == TRIG_FOLLOW then l.scanStopArgs[0] else 0)
            && u.acqEdge == into.acqEdge && u.acqChan == into.acqChan
  {
  }

  /** Written back over a struct without flags, an accepted trigger is accepted again exactly if it is not one of the
      conversion triggers with scans by timer, whose ticks no longer fit the type they come back as. */
  lemma AcceptedAgain(l: LongTriggers, into: LongTriggers)
    requires Accepted(l) && into.flags == 0
    ensures Accepted(LongOf(SimpleOf(l), into)) <==> l.convType == TRIG_TIMER || l.scanType != TRIG_TIMER
  {
    JoinSplit(Join(l.scanTicks));
  }

  // In the numbers of the interface and of the driver.

  /** The 14 triples of start types: SW (80001), EXT_DIGITAL (80006), EXT_ANALOG (80007), TIMER (80009), FOLLOW
      (8000B). */
  lemma StartTable(acq: int, scan: int, conv: int)
    ensures StartAccepted(acq, scan, conv) <==>
            (acq, scan, conv) in {
              (0x80001, 0x80009, 0x80009), (0x80001, 0x8000B, 0x80009),
              (0x80006, 0x80009, 0x80009), (0x80007, 0x80009, 0x80009),
              (0x80006, 0x8000B, 0x80009), (0x80007, 0x8000B, 0x80009),
              (0x80006, 0x80006, 0x80009), (0x80007, 0x80007, 0x80009),
              (0x80006, 0x80006, 0x80006), (0x80007, 0x80007, 0x80007),
              (0x80006, 0x80009, 0x80006), (0x80007, 0x80009, 0x80007),
              (0x80006, 0x8000B, 0x80006), (0x80007, 0x8000B, 0x80007) }
  {
  }

  /** Every error code, and when it is the one that is reported. */
  lemma ErrorTable(l: LongTriggers)
    ensures var start := StartAccepted(l.acqType, l.scanType, l.convType);
            var ticks := Join(l.scanTicks) != 0 <==> l.scanType == 0x80009;
            var scanStop := l.scanStopType == 0 || (l.scanStopType == 0x8000A && l.scanStopCount > 0);
            var pair := (l.scanStopType == 0 && l.acqStopType in {0, 0x8000A})
                || (l.scanStopType == 0x8000A && l.acqStopType == 0x8000B);
            && (ErrorOf(l) == 39 <==> !start)
            && (ErrorOf(l) == 45 <==> start && !ticks)
            && (ErrorOf(l) == 10 <==> start && ticks && l.flags != 0)
            && (ErrorOf(l) == 48 <==> start && ticks && l.flags == 0 && l.scanStopType !in {0, 0x8000A})
            && (ErrorOf(l) == 49 <==>
                start && ticks && l.flags == 0 && l.scanStopType == 0x8000A && l.scanStopCount <= 0)
            && (ErrorOf(l) == 50 <==> start && ticks && l.flags == 0 && scanStop && !pair)
            && (ErrorOf(l) == 51 <==>
                start && ticks && l.flags == 0 && scanStop && pair && l.acqStopType == 0x8000A && l.acqStopCount <= 0)
            && (ErrorOf(l) == 0 <==>
                && start && ticks && l.flags == 0 && scanStop && pair
                && (l.acqStopType == 0x8000A ==> l.acqStopCount > 0))
            && (ErrorOf(l) == 0 <==> Accepted(l))
  {
  }

  /** The driver form of every accepted trigger. A digital start with conversions by the same trigger comes out as
      CONV_ANALOG (14), an analog one as CONV_DIGITAL (04): the conversion types are crossed, the others are not. */
  lemma SimpleTable(l: LongTriggers)
    requires Accepted(l)
    ensures var t := SimpleOf(l).triggerType;
            && (t == 0x14 <==> l.acqType == 0x80006 && l.convType == 0x80006)
            && (t == 0x04 <==> l.acqType == 0x80007 && l.convType == 0x80007)
            && (t == 0x02 <==> l.acqType == 0x80006 && l.scanType == 0x80006 && l.convType == 0x80009)
            && (t == 0x12 <==> l.acqType == 0x80007 && l.scanType == 0x80007 && l.convType == 0x80009)
            && (t == 0x01 <==> l.acqType == 0x80006 && l.scanType in {0x80009, 0x8000B} && l.convType == 0x80009)
            && (t == 0x11 <==> l.acqType == 0x80007 && l.scanType in {0x80009, 0x8000B} && l.convType == 0x80009)
            && (t == 0x00 <==> l.acqType == 0x80001)
    ensures SimpleOf(l).triggerEdge == l.acqEdge && SimpleOf(l).synchro == l.acqChan
    ensures SimpleOf(l).levelUpper == l.acqArgs[0] && SimpleOf(l).levelLower == l.acqArgs[1]
    ensures forall s, h :: (s, h) in { (SimpleOf(l).acqTicks, l.acqTicks), (SimpleOf(l).scanTicks, l.scanTicks),
                                       (SimpleOf(l).convTicks, l.convTicks) } ==>
              s == (h.low + h.high * 0x1_0000_0000) % 0x1_0000_0000_0000_0000
    ensures var s := SimpleOf(l);
            && (l.acqStopType == 0 ==> s.stopType == 0 && s.stopCount == 0 && s.triggerPoint == 0)
            && (l.acqStopType == 0x8000A ==>
                  s.stopType == 0xA1001 && s.stopCount == l.acqStopCount && s.triggerPoint == l.acqStopArgs[0])
            && (l.acqStopType == 0x8000B ==>
                  s.stopType == 0xA1002 && s.stopCount == l.scanStopCount && s.triggerPoint == l.scanStopArgs[0])
            && l.acqStopType in {0, 0x8000A, 0x8000B}
  {
  }

  /** The interface form of every driver form: of an unknown type nothing of the start triple is written, and whatever
      has no place in the driver form stays as it was. */
  lemma LongTable(s: SimpleTriggers, l: LongTriggers)
    ensures var u := LongOf(s, l);
            var start, scan := (u.acqType, u.scanType, u.convType), if s.scanTicks == 0 then 0x8000B else 0x80009;
            && (s.triggerType == 0x00 ==> start == (0x80001, scan, 0x80009))
            && (s.triggerType == 0x01 ==> start == (0x80006, scan, 0x80009))
            && (s.triggerType == 0x11 ==> start == (0x80007, scan, 0x80009))
            && (s.triggerType == 0x02 ==> start == (0x80006, 0x80006, 0x80009))
            && (s.triggerType == 0x12 ==> start == (0x80007, 0x80007, 0x80009))
            && (s.triggerType == 0x04 ==> start == (0x80006, 0x80006, 0x80006))
            && (s.triggerType == 0x14 ==> start == (0x80007, 0x80007, 0x80007))
            && (s.triggerType !in {0x00, 0x01, 0x11, 0x02, 0x12, 0x04, 0x14} ==>
                  start == (l.acqType, l.scanType, l.convType))
            && u.acqTicks == Split(s.acqTicks) && u.scanTicks == Split(s.scanTicks) && u.convTicks == Split(s.convTicks)
            && (u.scanStopType, u.scanStopCount, u.acqStopType, u.acqStopCount) ==
               (if s.stopType == 0xA1001 then (0, 0, 0x8000A, s.stopCount)
                else if s.stopType == 0xA1002 then (0x8000A, s.stopCount, 0x8000B, 0)
                else (0, 0, 0, 0))
            && u.acqArgs[0] == s.levelUpper && u.acqArgs[1] == s.levelLower && u.acqArgs[2..] == l.acqArgs[2..]
            && u.scanStopArgs[0] == s.triggerPoint && u.scanStopArgs[1..] == l.scanStopArgs[1..]
            && u.acqStopArgs == l.acqStopArgs && u.flags == l.flags && u.acqEdge == l.acqEdge && u.acqChan == l.acqChan
  {
  }
}
