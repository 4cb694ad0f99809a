/** Temperatures from the voltage of a thermocouple: meCalcTCTemp (library/meids_global.c). The tables of
    common/te_type_b.h to common/te_type_t.h hold the voltage in microvolts at every whole degree. */
module Thermocouple {
  import opened Pt100

  datatype Sensor = Sensor(gain: real, table: seq<real>, minTemp: real)

  predicate IsSensor(s: Sensor) {
    s.gain != 0.0 && s.table != []
  }

  function Microvolts(s: Sensor, voltage: real): real
    requires IsSensor(s)
  {
    voltage / s.gain * 1000000.0
  }

  /** Entry i is the first one above v, and the step behind it can be divided by. */
  predicate HasSlope(table: seq<real>, i: nat) {
    i + 1 < |table| && table[i + 1] != table[i]
  }

  /** The temperature at v microvolts. Outside the table it is a voltage, the nearest entry. Between two entries it is
      computed with the step behind the upper one; `undefined` is the result if there is none. */
  function TempAt(s: Sensor, v: real, offset: real, undefined: real): real
    requires IsSensor(s)
  {
    var t, last := s.table, |s.table| - 1;
    if v <= t[0] then t[0]
    else if v >= t[last] then t[last]
    else
      var i := FirstAtLeast(t, v);
      if v == t[i] then s.minTemp + i as real + offset
      else if !HasSlope(t, i) then undefined
      else s.minTemp + i as real + (v - t[i]) / (t[i + 1] - t[i]) + offset
  }

  /** meCalcTCTemp. */
  method CalcTcTemp(s: Sensor, voltage: real, offset: real, undefined: real) returns (temp: real)
    requires IsSensor(s)
    ensures temp == TempAt(s, Microvolts(s, voltage), offset, undefined)
  {
    hide FirstAtLeast;
    var t, v := s.table, Microvolts(s, voltage);
    if v <= t[0] {
      return t[0];
    }
    if v >= t[|t| - 1] {
      return t[|t| - 1];
    }
    var i := 0;
    while i < |t|
      invariant 0 <= i < |t| && FirstAtLeast(t, v) >= i
      decreases |t| - i
    {
      if v == t[i] {
        return s.minTemp + i as real + offset;
      } else if v > t[i] {
        i := i + 1;
      } else if HasSlope(t, i) {
        return s.minTemp + i as real + (v - t[i]) / (t[i + 1] - t[i]) + offset;
      } else {
        return undefined;
      }
    }
    temp := 0.0;
  }

  /** The first entry that is not below entry k comes before it, and from there on to entry k the table falls in line
      with its next step. */
  predicate FallsTo(s: Sensor, k: nat, offset: real, undefined: real)
    requires k < |s.table|
  {
    var t, i := s.table, FirstAtLeast(s.table, s.table[k]);
    && i < k
    && t[i] != t[k]
    && if HasSlope(t, i) then t[k] - t[i] == (k - i) as real * (t[i + 1] - t[i])
        else undefined == s.minTemp + k as real + offset
  }

  /** An entry inside the table has its own temperature exactly if all entries before it are smaller, or by accident, if
      the table falls to it in line. */
  lemma EntryTemp(s: Sensor, k: nat, offset: real, undefined: real)
    requires IsSensor(s) && 0 < k < |s.table| - 1 && s.table[0] < s.table[k] < s.table[|s.table| - 1]
    ensures TempAt(s, s.table[k], offset, undefined) == s.minTemp + k as real + offset <==>
            (forall j :: 0 <= j < k ==> s.table[j] < s.table[k]) || FallsTo(s, k, offset, undefined)
  {
    hide FirstAtLeast;
    var t, i := s.table, FirstAtLeast(s.table, s.table[k]);
    assert i <= k;
    if i < k && HasSlope(t, i) {
      QuotientIs(t[k] - t[i], t[i + 1] - t[i], (k - i) as real);
    }
  }

  lemma QuotientIs(x: real, d: real, q: real)
    requires d != 0.0
    ensures x / d == q <==> x == q * d
  {
    assert x / d * d == x;
    if x == q * d {
      SameFactor(x / d, q, d);
    }
  }

  /** What linear interpolation between the two neighbours gives. */
  function Interpolated(s: Sensor, i: nat, v: real, offset: real): real
    requires 0 < i < |s.table| && s.table[i - 1] != s.table[i]
  {
    s.minTemp + (i - 1) as real + (v - s.table[i - 1]) / (s.table[i] - s.table[i - 1]) + offset
  }

  /** Between two entries the result is the linear interpolation exactly if the step behind them is as high as their own
      one. */
  lemma InterpolatesExactly(s: Sensor, v: real, offset: real, undefined: real)
    requires IsSensor(s) && s.table[0] < v < s.table[|s.table| - 1]
    requires v != s.table[FirstAtLeast(s.table, v)] && HasSlope(s.table, FirstAtLeast(s.table, v))
    ensures var i, t := FirstAtLeast(s.table, v), s.table;
            && 0 < i && t[i - 1] < v < t[i]
            && (TempAt(s, v, offset, undefined) == Interpolated(s, i, v, offset)
                <==> t[i + 1] - t[i] == t[i] - t[i - 1])
  {
    hide FirstAtLeast;
    var i, t := FirstAtLeast(s.table, v), s.table;
    SameSlope(v - t[i], t[i] - t[i - 1], t[i + 1] - t[i]);
  }

  /** Going back by x from the end of a step of height d, with the height e. */
  lemma SameSlope(x: real, d: real, e: real)
    requires x < 0.0 && d > 0.0 && e != 0.0
    ensures (x + d) / d == x / d + 1.0
    ensures x / e == x / d <==> e == d
  {
    SumOfQuotients(x, d);
    if x / e == x / d {
      EqualQuotients(x, d, e);
    }
  }

  lemma SumOfQuotients(x: real, d: real)
    requires d > 0.0
    ensures (x + d) / d == x / d + 1.0
  {
    var p, q := (x + d) / d, x / d;
    assert p * d == x + d && q * d == x;
    assert (q + 1.0) * d == x + d;
    SameFactor(p, q + 1.0, d);
  }

  lemma SameFactor(p: real, q: real, d: real)
    requires d != 0.0 && p * d == q * d
    ensures p == q
  {
  }

  lemma EqualQuotients(x: real, d: real, e: real)
    requires x != 0.0 && d != 0.0 && e != 0.0 && x / e == x / d
    ensures e == d
  {
    var q := x / e;
    assert q * e == x && q * d == x;
    assert q * (e - d) == 0.0;
  }

  /** In numbers, with i the first entry that is not below: the voltage is amplified by the gain and counted in
      microvolts; inside the table the step behind the entry i gives the slope; outside, the result is the entry. */
  lemma TempInNumbers(s: Sensor, voltage: real, offset: real, undefined: real, i: nat)
    requires IsSensor(s) && 0 < i < |s.table|
    ensures Microvolts(s, voltage) * s.gain == voltage * 1000000.0
    ensures var v, t := Microvolts(s, voltage), s.table;
            var temp := TempAt(s, v, offset, undefined);
            && (v <= t[0] ==> temp == t[0])
            && (t[0] < v && v >= t[|t| - 1] ==> temp == t[|t| - 1])
            && (t[0] < v < t[|t| - 1] && (forall k :: 0 <= k < i ==> t[k] < v) ==>
                  && (v == t[i] ==> temp == s.minTemp + i as real + offset)
                  && (v < t[i] && i + 1 < |t| && t[i + 1] != t[i] ==>
                        (temp - offset - s.minTemp - i as real) * (t[i + 1] - t[i]) == v - t[i])
                  && (v < t[i] && (i + 1 < |t| ==> t[i + 1] == t[i]) ==> temp == undefined))
  {
    hide FirstAtLeast;
    QuotientIs(voltage, s.gain, voltage / s.gain);
    var v, t := Microvolts(s, voltage), s.table;
    assert v * s.gain == voltage / s.gain * s.gain * 1000000.0;
    if t[0] < v < t[|t| - 1] && (forall k :: 0 <= k < i ==> t[k] < v) && v <= t[i] {
      FirstIs(t, v, i);
      if v < t[i] && i + 1 < |t| && t[i + 1] != t[i] {
        QuotientIs(v - t[i], t[i + 1] - t[i], (v - t[i]) / (t[i + 1] - t[i]));
      }
    }
  }
}
