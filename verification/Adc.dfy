/** Converting between physical values and the integers of the hardware: meUtilityPhysicalToDigital and
    meUtilityDigitalToPhysical (library/meids_global.c). */
module Adc {
  import opened Defines
  import Pt100
  import Thermocouple

  /** The module types of osi/medefines.h; the eight kinds of thermocouples differ in their constants. */
  datatype Module =
    | Plain
    | Diff10V
    | Diff20V
    | Diff50V
    | Current20mA
    | RtdPt100
    | RtdPt500
    | RtdPt1000
    | Te8(sensor: Thermocouple.Sensor)
    | TempSensor
    | Unknown

  // The line between (0, dMin) and (maxData, dMax).

  /** The physical value of one step. */
  function Lsb(dMin: real, dMax: real, maxData: int): real
    requires maxData != 0
  {
    (dMax - dMin) / maxData as real
  }

  function PhysicalAt(dMin: real, dMax: real, maxData: int, level: real): real
    requires maxData != 0
  {
    (dMax - dMin) * level / maxData as real + dMin
  }

  function LevelAt(dMin: real, dMax: real, maxData: int, physical: real): real
    requires dMin != dMax
  {
    (physical - dMin) / (dMax - dMin) * maxData as real
  }

  lemma LineIsLinear(dMin: real, dMax: real, maxData: int, level: real)
    requires maxData != 0
    ensures PhysicalAt(dMin, dMax, maxData, level) == dMin + level * Lsb(dMin, dMax, maxData)
  {
  }

  lemma LevelOfPhysical(dMin: real, dMax: real, maxData: int, x: real)
    requires dMin != dMax && maxData != 0
    ensures LevelAt(dMin, dMax, maxData, PhysicalAt(dMin, dMax, maxData, x)) == x
  {
  }

  lemma PhysicalOfLevel(dMin: real, dMax: real, maxData: int, x: real)
    requires dMin != dMax && maxData != 0
    ensures PhysicalAt(dMin, dMax, maxData, LevelAt(dMin, dMax, maxData, x)) == x
  {
  }

  lemma LsbIsPositive(dMin: real, dMax: real, maxData: int)
    requires dMin < dMax && maxData > 0
    ensures Lsb(dMin, dMax, maxData) > 0.0
    ensures maxData as real * Lsb(dMin, dMax, maxData) == dMax - dMin
  {
  }

  /** A level and a physical value of the same sample compare with their bounds in the same way. */
  lemma SameOrder(dMin: real, dMax: real, maxData: int, physical: real, level: real)
    requires dMin < dMax && maxData > 0
    ensures LevelAt(dMin, dMax, maxData, physical) < level <==> physical < dMin + level * Lsb(dMin, dMax, maxData)
    ensures LevelAt(dMin, dMax, maxData, physical) > level <==> physical > dMin + level * Lsb(dMin, dMax, maxData)
  {
  }

  // Physical to digital.

  /** The cast of a double to an int drops the fraction. */
  function Truncate(x: real): int {
    if x >= 0.0 then x.Floor else -(-x).Floor
  }

  function Rounded(dMin: real, dMax: real, maxData: int, physical: real): int
    requires dMin != dMax
  {
    Truncate(LevelAt(dMin, dMax, maxData, physical) + 0.5)
  }

  function Limited(x: int, max: nat): (r: nat)
    ensures r <= max
  {
    if x < 0 then 0 else if x > max then max else x
  }

  /** A double can be cast to int if the part before the point is in range. */
  predicate CastDefined(x: real) {
    -2147483649.0 < x < 2147483648.0
  }

  /** The integer before it is limited; `undefined` is what division and cast give where C leaves it open. */
  function Raw(dMin: real, dMax: real, maxData: int32, physical: real, undefined: int32): int32 {
    if dMin == dMax || !CastDefined(LevelAt(dMin, dMax, maxData, physical) + 0.5) then undefined
    else Rounded(dMin, dMax, maxData, physical)
  }

  predicate Refused(x: int, dMax: real, maxData: int, physical: real) {
    x < 0 || (x > maxData && physical > dMax)
  }

  /** meUtilityPhysicalToDigital; oldData is what the result pointer points to before. */
  method PhysicalToDigital(dMin: real, dMax: real, maxData: int32, physical: real, hasData: bool, oldData: int32,
                           undefined: int32)
    returns (err: int, data: int32)
    ensures !hasData ==> err == ERRNO_INVALID_POINTER && data == oldData
    ensures hasData && maxData < 0 ==> err == ERRNO_INVALID_MIN_MAX && data == oldData
    ensures hasData && maxData == 0 ==> err == ERRNO_SUCCESS && data == 0
    ensures hasData && maxData > 0 ==>
            var x := Raw(dMin, dMax, maxData, physical, undefined);
            && data == Limited(x, maxData)
            && err == if Refused(x, dMax, maxData, physical) then ERRNO_VALUE_OUT_OF_RANGE else ERRNO_SUCCESS
  {
    hide LevelAt, Truncate, Raw;
    err, data := ERRNO_SUCCESS, oldData;
    if !hasData {
      err := ERRNO_INVALID_POINTER;
      return;
    }
    if maxData < 0 {
      err := ERRNO_INVALID_MIN_MAX;
      return;
    }
    if maxData == 0 {
      data := 0;
      return;
    }
    data := Raw(dMin, dMax, maxData, physical, undefined);
    if data < 0 {
      data := 0;
      err := ERRNO_VALUE_OUT_OF_RANGE;
    } else if data > maxData {
      data := maxData;
      if physical > dMax {
        err := ERRNO_VALUE_OUT_OF_RANGE;
      }
    }
  }

  /** The cast is defined exactly for values in a range about 2^32 steps wide, which contains the limits. */
  lemma DefinedExactly(dMin: real, dMax: real, maxData: int32, physical: real)
    requires dMin < dMax && maxData > 0
    ensures var step := Lsb(dMin, dMax, maxData);
            && (CastDefined(LevelAt(dMin, dMax, maxData, physical) + 0.5)
                <==> dMin + -2147483649.5 * step < physical < dMin + 2147483647.5 * step)
            && (dMin <= physical <= dMax ==> CastDefined(LevelAt(dMin, dMax, maxData, physical) + 0.5))
  {
    hide LevelAt, Lsb;
    SameOrder(dMin, dMax, maxData, physical, -2147483649.5);
    SameOrder(dMin, dMax, maxData, physical, 2147483647.5);
    SameOrder(dMin, dMax, maxData, physical, 0.0);
    SameOrder(dMin, dMax, maxData, physical, maxData as real);
    LsbIsPositive(dMin, dMax, maxData);
  }

  lemma TruncateBounds(x: real, max: nat)
    ensures Truncate(x) < 0 <==> x <= -1.0
    ensures Truncate(x) > max <==> x >= (max + 1) as real
    ensures x >= 0.0 ==> Truncate(x) as real <= x < Truncate(x) as real + 1.0
    ensures -1.0 < x < 0.0 ==> Truncate(x) == 0
  {
  }

  /** Where the cast is defined, the value is refused exactly from one and a half steps below dMin and from half a step
      above dMax: below zero the cast rounds towards zero, and so the lower end is a step wider. Elsewhere it depends
      on what the cast gives. */
  lemma RefusedExactly(dMin: real, dMax: real, maxData: int32, physical: real, undefined: int32)
    requires dMin < dMax && maxData > 0
    ensures var step := Lsb(dMin, dMax, maxData);
            Refused(Raw(dMin, dMax, maxData, physical, undefined), dMax, maxData, physical) <==>
            if CastDefined(LevelAt(dMin, dMax, maxData, physical) + 0.5) then
              physical <= dMin - 1.5 * step || physical >= dMax + 0.5 * step
            else Refused(undefined, dMax, maxData, physical)
  {
    hide LevelAt, Truncate, Lsb;
    var step := Lsb(dMin, dMax, maxData);
    TruncateBounds(LevelAt(dMin, dMax, maxData, physical) + 0.5, maxData);
    SameOrder(dMin, dMax, maxData, physical, -1.5);
    SameOrder(dMin, dMax, maxData, physical, maxData as real + 0.5);
    LsbIsPositive(dMin, dMax, maxData);
    assert (maxData as real + 0.5) * step == maxData as real * step + 0.5 * step;
  }

  /** A greater value never gives a smaller integer. */
  lemma DigitalIsMonotone(dMin: real, dMax: real, maxData: int, p: real, q: real)
    requires dMin < dMax && maxData > 0 && p <= q
    ensures Rounded(dMin, dMax, maxData, p) <= Rounded(dMin, dMax, maxData, q)
  {
    hide LevelAt, PhysicalAt, Lsb;
    var x := LevelAt(dMin, dMax, maxData, q);
    PhysicalOfLevel(dMin, dMax, maxData, q);
    LineIsLinear(dMin, dMax, maxData, x);
    SameOrder(dMin, dMax, maxData, p, x);
  }

  // Digital to physical.

  function Voltage(dMin: real, dMax: real, maxData: int, data: int): real
    requires maxData != 0
  {
    PhysicalAt(dMin, dMax, maxData, data as real)
  }

  predicate IsLinear(m: Module) {
    m in {Plain, Diff10V, Diff20V, Diff50V, Current20mA}
  }

  function Gain(m: Module): real
    requires IsLinear(m)
  {
    match m
    case Plain => 1.0
    case Diff10V => 1.0
    case Diff20V => 2.0
    case Diff50V => 5.0
    case Current20mA => 0.002
  }

  function Scaled(g: real, x: real): real {
    g * x
  }

  /** What a module with a gain measures. */
  function Amplified(m: Module, voltage: real): real
    requires IsLinear(m)
  {
    Scaled(Gain(m), voltage)
  }

  predicate IsRtd(m: Module) {
    m in {RtdPt100, RtdPt500, RtdPt1000}
  }

  /** The resistance in PT100 ohms; a reference current of zero stands for half a milliampere. */
  function Resistance(m: Module, voltage: real, reference: real): real
    requires IsRtd(m)
  {
    var current := if reference == 0.0 then 0.0005 else reference;
    var factor := match m case RtdPt100 => 40.0 case RtdPt500 => 8.0 case RtdPt1000 => 4.0;
    voltage / factor / current
  }

  predicate IsModule(m: Module) {
    m.Te8? ==> Thermocouple.IsSensor(m.sensor)
  }

  /** meUtilityDigitalToPhysical, with the table of the PT100 sensor as a parameter. An INVALID_MIN_MAX is overwritten
      unless maxData and data are both zero. `undefined` is what the thermocouple formula gives where C leaves it
      open. */
  method DigitalToPhysical(dMin: real, dMax: real, maxData: int, data: int, m: Module, reference: real,
                           table: seq<real>,
                           hasPhysical: bool, oldPhysical: real, undefined: real)
    returns (err: int, physical: real)
    requires table != [] && IsModule(m)
    ensures !hasPhysical ==> err == ERRNO_INVALID_POINTER && physical == oldPhysical
    ensures hasPhysical && data < 0 ==> err == ERRNO_VALUE_OUT_OF_RANGE && physical == dMin
    ensures hasPhysical && data >= 0 && data > maxData ==> err == ERRNO_VALUE_OUT_OF_RANGE && physical == dMax
    ensures hasPhysical && data == 0 == maxData ==> err == ERRNO_INVALID_MIN_MAX && physical == 0.0
    ensures hasPhysical && 0 <= data <= maxData && maxData > 0 ==>
            var voltage := Voltage(dMin, dMax, maxData, data);
            && (err == if m == Unknown then ERRNO_INVALID_MODULE_TYPE else ERRNO_SUCCESS)
            && (IsLinear(m) ==> physical == Amplified(m, voltage))
            && (IsRtd(m) ==> physical == Pt100.Temp(table, Resistance(m, voltage, reference)))
            && (m == TempSensor ==> physical == (voltage / 4.0 - 0.5) / 0.01)
            && (m.Te8? ==> physical == Thermocouple.TempAt(m.sensor, Thermocouple.Microvolts(m.sensor, voltage),
                                                           reference, undefined))
            && (m == Unknown ==> physical == oldPhysical)
  {
    hide Pt100.Temp, Thermocouple.TempAt, Thermocouple.Microvolts, Amplified, Resistance, IsLinear, IsRtd;
    err, physical := ERRNO_SUCCESS, oldPhysical;
    if !hasPhysical {
      err := ERRNO_INVALID_POINTER;
      return;
    }
    if maxData <= 0 {
      err := ERRNO_INVALID_MIN_MAX;
      physical := 0.0;
    }
    if data < 0 {
      err := ERRNO_VALUE_OUT_OF_RANGE;
      physical := dMin;
    } else if data > maxData {
      err := ERRNO_VALUE_OUT_OF_RANGE;
      physical := dMax;
    }
    if err == ERRNO_SUCCESS {
      var voltage := dMax - dMin;
      voltage := voltage * data as real;
      voltage := voltage / maxData as real;
      voltage := voltage + dMin;
      assert voltage == Voltage(dMin, dMax, maxData, data);
      err, physical := OfModule(voltage, m, reference, table, physical, undefined);
    }
  }

  /** The switch over the modules. */
  method OfModule(voltage: real, m: Module, reference: real, table: seq<real>, oldPhysical: real, undefined: real)
    returns (err: int, physical: real)
    requires table != [] && IsModule(m)
    ensures err == if m == Unknown then ERRNO_INVALID_MODULE_TYPE else ERRNO_SUCCESS
    ensures IsLinear(m) ==> physical == Amplified(m, voltage)
    ensures IsRtd(m) ==> physical == Pt100.Temp(table, Resistance(m, voltage, reference))
    ensures m == TempSensor ==> physical == (voltage / 4.0 - 0.5) / 0.01
    ensures m.Te8? ==>
            physical == Thermocouple.TempAt(m.sensor, Thermocouple.Microvolts(m.sensor, voltage), reference, undefined)
    ensures m == Unknown ==> physical == oldPhysical
  {
    hide Pt100.Temp, Thermocouple.TempAt, Thermocouple.Microvolts;
    err, physical := ERRNO_SUCCESS, oldPhysical;
    var current := reference;
    if reference == 0.0 {
      match m
      case RtdPt100 | RtdPt500 | RtdPt1000 => current := 0.0005;
      case _ =>
    }
    match m
    case Plain | Diff10V => physical := voltage;
    case Diff20V => physical := voltage * 2.0;
    case Diff50V => physical := voltage * 5.0;
    case Current20mA => physical := 0.02 / 10.0 * voltage;
    case RtdPt100 => physical := Pt100.CalcTemp(table, voltage / 40.0 / current);
    case RtdPt500 => physical := Pt100.CalcTemp(table, voltage / 8.0 / current);
    case RtdPt1000 => physical := Pt100.CalcTemp(table, voltage / 4.0 / current);
    case Te8(sensor) => physical := Thermocouple.CalcTcTemp(sensor, voltage, reference, undefined);
    case TempSensor => physical := (voltage / 4.0 - 0.5) / 0.01;
    case Unknown => err := ERRNO_INVALID_MODULE_TYPE;
  }

  // Round trips.

  /** Every integer comes back, without an error if dMin is the smaller limit. */
  lemma DigitalRoundTrip(dMin: real, dMax: real, maxData: int32, data: int, undefined: int32)
    requires dMin != dMax && 0 <= data <= maxData && maxData > 0
    ensures Raw(dMin, dMax, maxData, Voltage(dMin, dMax, maxData, data), undefined) == data
  {
    hide LevelAt, PhysicalAt;
    LevelOfPhysical(dMin, dMax, maxData, data as real);
  }

  /** Every value within the limits comes back up to half a step. */
  lemma PhysicalRoundTrip(dMin: real, dMax: real, maxData: int32, physical: real, undefined: int32)
    requires dMin <= physical <= dMax && dMin < dMax && maxData > 0
    ensures var back := Voltage(dMin, dMax, maxData, Limited(Raw(dMin, dMax, maxData, physical, undefined), maxData));
            -0.5 * Lsb(dMin, dMax, maxData) <= back - physical <= 0.5 * Lsb(dMin, dMax, maxData)
  {
    hide LevelAt, PhysicalAt, Lsb, Truncate;
    var x, step := LevelAt(dMin, dMax, maxData, physical), Lsb(dMin, dMax, maxData);
    LsbIsPositive(dMin, dMax, maxData);
    SameOrder(dMin, dMax, maxData, physical, 0.0);
    SameOrder(dMin, dMax, maxData, physical, maxData as real);
    TruncateBounds(x + 0.5, maxData);
    var r := Rounded(dMin, dMax, maxData, physical) as real;
    LineIsLinear(dMin, dMax, maxData, r);
    SameOrder(dMin, dMax, maxData, physical, r - 0.5);
    SameOrder(dMin, dMax, maxData, physical, r + 0.5);
    assert (r - 0.5) * step == r * step - 0.5 * step;
    assert (r + 0.5) * step == r * step + 0.5 * step;
  }

  lemma GainIsPositive(m: Module)
    requires IsLinear(m)
    ensures Gain(m) > 0.0
  {
  }

  lemma ScaledDifference(g: real, a: real, b: real)
    ensures g * b - g * a == g * (b - a)
  {
  }

  lemma ScaledProduct(g: real, y: real, x: real)
    ensures g * y * x == g * (y * x)
  {
  }

  lemma ScaledQuotient(g: real, y: real, n: real)
    requires n != 0.0
    ensures g * y / n == g * (y / n)
  {
  }

  lemma ScaledSum(g: real, a: real, b: real)
    ensures g * a + g * b == g * (a + b)
  {
  }

  lemma ScaledLine(g: real, dMin: real, dMax: real, maxData: int, level: real)
    requires g > 0.0 && maxData != 0
    ensures PhysicalAt(Scaled(g, dMin), Scaled(g, dMax), maxData, level)
            == Scaled(g, PhysicalAt(dMin, dMax, maxData, level))
  {
    var y, n := dMax - dMin, maxData as real;
    ScaledDifference(g, dMin, dMax);
    ScaledProduct(g, y, level);
    ScaledQuotient(g, y * level, n);
    ScaledSum(g, y * level / n, dMin);
  }

  lemma ScaledApart(g: real, a: real, b: real)
    requires g > 0.0 && a != b
    ensures Scaled(g, a) != Scaled(g, b)
  {
  }

  /** A module with a gain measures as the plain module does between limits multiplied by the gain, and so its values go
      back to integers with these limits. */
  lemma GainRoundTrip(dMin: real, dMax: real, maxData: int32, data: int, m: Module, undefined: int32)
    requires dMin != dMax && 0 <= data <= maxData && maxData > 0 && IsLinear(m)
    ensures var low, high, value := Amplified(m, dMin), Amplified(m, dMax),
            Amplified(m, Voltage(dMin, dMax, maxData, data));
            low != high && value == Voltage(low, high, maxData, data)
                && Raw(low, high, maxData, value, undefined) == data
  {
    hide Gain, IsLinear, Raw, Scaled, PhysicalAt;
    var g := Gain(m);
    GainIsPositive(m);
    ScaledApart(g, dMin, dMax);
    ScaledLine(g, dMin, dMax, maxData, data as real);
    DigitalRoundTrip(Scaled(g, dMin), Scaled(g, dMax), maxData, data, undefined);
  }

  /** The temperature of a sensor rises with the integer, for every table and a positive reference current. */
  lemma TemperatureIsMonotone(dMin: real, dMax: real, maxData: int, a: int, b: int, m: Module, reference: real,
                              table: seq<real>)
    requires dMin < dMax && maxData > 0 && 0 <= a <= b <= maxData && IsRtd(m) && reference >= 0.0 && table != []
    ensures Pt100.Temp(table, Resistance(m, Voltage(dMin, dMax, maxData, a), reference))
         <= Pt100.Temp(table, Resistance(m, Voltage(dMin, dMax, maxData, b), reference))
  {
    hide Pt100.Temp, Voltage, Resistance;
    VoltageIsMonotone(dMin, dMax, maxData, a, b);
    var u, v := Voltage(dMin, dMax, maxData, a), Voltage(dMin, dMax, maxData, b);
    ResistanceIsMonotone(m, u, v, reference);
    Pt100.TempIsMonotone(table, Resistance(m, u, reference), Resistance(m, v, reference));
  }

  lemma VoltageIsMonotone(dMin: real, dMax: real, maxData: int, a: int, b: int)
    requires dMin < dMax && maxData > 0 && a <= b
    ensures Voltage(dMin, dMax, maxData, a) <= Voltage(dMin, dMax, maxData, b)
  {
  }

  lemma ResistanceIsMonotone(m: Module, u: real, v: real, reference: real)
    requires IsRtd(m) && u <= v && reference >= 0.0
    ensures Resistance(m, u, reference) <= Resistance(m, v, reference)
  {
  }

  // In numbers.

  /** The voltage of an integer lies on the line between the limits, a step for every integer. */
  lemma VoltageInNumbers(dMin: real, dMax: real, maxData: int, data: int)
    requires maxData != 0
    ensures (Voltage(dMin, dMax, maxData, data) - dMin) * maxData as real == (dMax - dMin) * data as real
    ensures data == 0 ==> Voltage(dMin, dMax, maxData, data) == dMin
    ensures data == maxData ==> Voltage(dMin, dMax, maxData, data) == dMax
    ensures Lsb(dMin, dMax, maxData) * maxData as real == dMax - dMin
  {
    var y, n := (dMax - dMin) * data as real, maxData as real;
    assert y / n * n == y;
    assert Voltage(dMin, dMax, maxData, data) - dMin == y / n;
    assert data == maxData ==> (dMax - dMin) * n / n == dMax - dMin;
  }

  /** The modules with a gain: 1, 1, 2 and 5, and 2 milliamperes for a volt. */
  lemma GainsInNumbers(voltage: real)
    ensures Amplified(Plain, voltage) == voltage && Amplified(Diff10V, voltage) == voltage
    ensures Amplified(Diff20V, voltage) == 2.0 * voltage && Amplified(Diff50V, voltage) == 5.0 * voltage
    ensures Amplified(Current20mA, voltage) * 500.0 == voltage
  {
  }

  /** The voltage is the amplified one that the current causes at the resistance, which for PT500 and PT1000 is counted
      in hundredths of their nominal one; the current is half a milliampere if none is given. */
  lemma ResistanceInNumbers(voltage: real, reference: real)
    ensures reference != 0.0 ==> voltage == Resistance(RtdPt100, voltage, reference) * 40.0 * reference
    ensures reference != 0.0 ==> voltage == Resistance(RtdPt500, voltage, reference) * 8.0 * reference
    ensures reference != 0.0 ==> voltage == Resistance(RtdPt1000, voltage, reference) * 4.0 * reference
    ensures voltage == Resistance(RtdPt100, voltage, 0.0) * 40.0 * 0.0005
    ensures voltage == Resistance(RtdPt500, voltage, 0.0) * 8.0 * 0.0005
    ensures voltage == Resistance(RtdPt1000, voltage, 0.0) * 4.0 * 0.0005
  {
    var current := if reference == 0.0 then 0.0005 else reference;
    TwoQuotients(voltage, 40.0, current);
    TwoQuotients(voltage, 8.0, current);
    TwoQuotients(voltage, 4.0, current);
    TwoQuotients(voltage, 40.0, 0.0005);
    TwoQuotients(voltage, 8.0, 0.0005);
    TwoQuotients(voltage, 4.0, 0.0005);
  }

  lemma TwoQuotients(x: real, a: real, b: real)
    requires a != 0.0 && b != 0.0
    ensures x / a / b * a * b == x
  {
    var p := x / a / b;
    assert p * b == x / a && x / a * a == x;
    assert p * a * b == p * b * a;
  }

  /** Values below the limits give 0 and values above them give maxData, if the cast is defined. */
  lemma LimitsInNumbers(dMin: real, dMax: real, maxData: int32, physical: real, undefined: int32)
    requires dMin < dMax && maxData > 0
    requires dMin - 2147483649.5 * Lsb(dMin, dMax, maxData) < physical < dMin + 2147483647.5 * Lsb(dMin, dMax, maxData)
    ensures physical <= dMin ==> Limited(Raw(dMin, dMax, maxData, physical, undefined), maxData) == 0
    ensures physical >= dMax ==> Limited(Raw(dMin, dMax, maxData, physical, undefined), maxData) == maxData
  {
    hide LevelAt, Lsb, Truncate;
    DefinedExactly(dMin, dMax, maxData, physical);
    SameOrder(dMin, dMax, maxData, physical, 0.0);
    SameOrder(dMin, dMax, maxData, physical, maxData as real);
    LsbIsPositive(dMin, dMax, maxData);
    TruncateBounds(LevelAt(dMin, dMax, maxData, physical) + 0.5, maxData);
    TruncateBounds(LevelAt(dMin, dMax, maxData, physical) + 0.5, 0);
  }
}
