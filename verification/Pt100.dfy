/** Temperatures from the resistance of a PT100 sensor: meCalcPT100Temp (library/meids_global.c). The table of
    common/pt_100.h holds the resistance at every whole degree from OFFSET on; here it is any table. */
module Pt100 {
  import opened Reals

  const OFFSET := -200.0

  /** The least index of an entry that is at least x; |table| if there is none. */
  function FirstAtLeast(table: seq<real>, x: real): (r: nat)
    ensures r <= |table|
    ensures forall k :: 0 <= k < r ==> table[k] < x
    ensures r < |table| ==> x <= table[r]
  {
    if table == [] || x <= table[0] then 0 else 1 + FirstAtLeast(table[1..], x)
  }

  /** How far x is on the way from a to b. */
  function Fraction(x: real, a: real, b: real): real
    requires a < b
  {
    (x - a) / (b - a)
  }

  function Temp(table: seq<real>, x: real): real
    requires table != []
  {
    var i := FirstAtLeast(table, x);
    if i == 0 then OFFSET
    else if i == |table| then i as real - 1.0 + OFFSET
    else (i - 1) as real + Fraction(x, table[i - 1], table[i]) + OFFSET
  }

  /** meCalcPT100Temp. It never divides by zero, for any table. */
  method CalcTemp(table: seq<real>, resistance: real) returns (grad: real)
    requires table != []
    ensures grad == Temp(table, resistance)
  {
    hide FirstAtLeast, Fraction;
    var i := 0;
    if resistance < table[i] {
      return OFFSET;
    }
    while i < |table|
      invariant 0 <= i <= |table| && FirstAtLeast(table, resistance) >= i
    {
      if resistance > table[i] {
        i := i + 1;
      } else if resistance == table[i] {
        AtEntry(table, i);
        grad := i as real + OFFSET;
        return;
      } else {
        assert FirstAtLeast(table, resistance) == i && 0 < i;
        Slope(resistance, table[i - 1], table[i]);
        grad := (i - 1) as real + 1.0 / (table[i] - table[i - 1]) * (resistance - table[i - 1]) + OFFSET;
        return;
      }
    }
    grad := (|table| - 1) as real + OFFSET;
  }

  /** The first entry that is not below its own value. */
  lemma AtEntry(table: seq<real>, i: nat)
    requires i < |table| && FirstAtLeast(table, table[i]) >= i
    ensures Temp(table, table[i]) == i as real + OFFSET
  {
    hide FirstAtLeast, Fraction;
    if i > 0 {
      FractionAtEnds(table[i - 1], table[i]);
    }
  }

  lemma FractionAtEnds(a: real, b: real)
    requires a < b
    ensures Fraction(a, a, b) == 0.0 && Fraction(b, a, b) == 1.0
  {
    DivideBack(0.0, b - a);
    DivideBack(1.0, b - a);
  }

  lemma DivideBack(q: real, d: real)
    requires d > 0.0
    ensures q * d / d == q
  {
  }

  lemma Slope(x: real, a: real, b: real)
    requires a < b
    ensures 1.0 / (b - a) * (x - a) == Fraction(x, a, b)
  {
  }

  lemma FractionIsMonotone(x: real, y: real, a: real, b: real)
    requires a < b && x <= y
    ensures Fraction(x, a, b) <= Fraction(y, a, b)
    ensures x < y ==> Fraction(x, a, b) < Fraction(y, a, b)
  {
  }

  /** The temperature lies behind the entry before FirstAtLeast and not behind that entry. */
  lemma TempBounds(table: seq<real>, x: real)
    requires table != []
    ensures var i := FirstAtLeast(table, x);
            && (0 < i ==> (i - 1) as real + OFFSET <= Temp(table, x))
            && (0 < i < |table| ==> (i - 1) as real + OFFSET < Temp(table, x))
            && (i < |table| ==> Temp(table, x) <= i as real + OFFSET)
  {
    hide FirstAtLeast, Fraction;
    var i := FirstAtLeast(table, x);
    if 0 < i < |table| {
      var a, b := table[i - 1], table[i];
      FractionAtEnds(a, b);
      FractionIsMonotone(a, x, a, b);
      FractionIsMonotone(x, b, a, b);
    }
  }

  lemma TempStaysInRange(table: seq<real>, x: real)
    requires table != []
    ensures OFFSET <= Temp(table, x) <= OFFSET + (|table| - 1) as real
  {
    hide FirstAtLeast, Fraction;
    TempBounds(table, x);
  }

  /** A greater resistance never gives a lower temperature, even if the table goes up and down. */
  lemma TempIsMonotone(table: seq<real>, x: real, y: real)
    requires table != [] && x <= y
    ensures Temp(table, x) <= Temp(table, y)
  {
    hide FirstAtLeast, Fraction;
    var i, j := FirstAtLeast(table, x), FirstAtLeast(table, y);
    if i == j {
      if 0 < i < |table| {
        FractionIsMonotone(x, y, table[i - 1], table[i]);
      }
    } else {
      assert i < j;
      TempBounds(table, x);
      TempBounds(table, y);
    }
  }

  // The table read as a piecewise linear curve.

  /** The point of the curve at s, degrees counted from OFFSET. */
  function Curve(table: seq<real>, s: real): real
    requires 0.0 <= s <= (|table| - 1) as real
  {
    var k := s.Floor;
    if s == k as real then table[k] else Along(s - k as real, table[k], table[k + 1])
  }

  function Along(f: real, a: real, b: real): real {
    a + Product(f, b - a)
  }

  lemma AlongAndBack(x: real, a: real, b: real)
    requires a < b
    ensures Along(Fraction(x, a, b), a, b) == x
  {
  }

  lemma AlongIsBetween(f: real, a: real, b: real)
    requires 0.0 < f < 1.0
    ensures Along(f, a, b) > a <==> a < b
    ensures a < b ==> Along(f, a, b) < b
  {
    hide Product;
    PartOf(f, b - a);
  }

  lemma FractionOfAlong(f: real, a: real, b: real)
    requires a < b
    ensures Fraction(Along(f, a, b), a, b) == f
  {
  }

  lemma PartOf(f: real, d: real)
    requires 0.0 < f < 1.0
    ensures d > 0.0 ==> 0.0 < Product(f, d) < d
    ensures d <= 0.0 ==> Product(f, d) <= 0.0
  {
    hide Product;
    SignOfProduct(f, d);
    SignOfProduct(1.0 - f, d);
    Rest(f, d);
  }

  lemma Rest(f: real, d: real)
    ensures Product(1.0 - f, d) == d - Product(f, d)
  {
  }

  function Ceiling(s: real): int {
    if s == s.Floor as real then s.Floor else s.Floor + 1
  }

  /** A temperature comes back from its resistance exactly if all entries before it are smaller. */
  lemma TempOfCurve(table: seq<real>, s: real)
    requires 0.0 <= s <= (|table| - 1) as real
    ensures Temp(table, Curve(table, s)) == s + OFFSET
            <==> forall k :: 0 <= k < Ceiling(s) ==> table[k] < Curve(table, s)
  {
    hide FirstAtLeast, Fraction, Along;
    var x, c, k := Curve(table, s), Ceiling(s), s.Floor;
    var i := FirstAtLeast(table, x);
    TempBounds(table, x);
    if s == k as real {
      if 0 < i < |table| && i == c {
        FractionAtEnds(table[i - 1], table[i]);
      }
    } else {
      AlongIsBetween(s - k as real, table[k], table[k + 1]);
      if table[k] < table[k + 1] {
        FractionOfAlong(s - k as real, table[k], table[k + 1]);
      }
    }
  }

  /** On an increasing table the temperature is the exact inverse of the curve. */
  lemma TempInvertsCurve(table: seq<real>, s: real)
    requires 0.0 <= s <= (|table| - 1) as real
    requires forall i, j :: 0 <= i < j < |table| ==> table[i] < table[j]
    ensures Temp(table, Curve(table, s)) == s + OFFSET
  {
    hide FirstAtLeast, Temp, Fraction, Along;
    TempOfCurve(table, s);
    var k := s.Floor;
    if s != k as real {
      AlongIsBetween(s - k as real, table[k], table[k + 1]);
    }
  }

  /** Behind a dip no temperature of the falling segment comes back; the table of common/pt_100.h falls from
      82.687 to 82.083. */
  lemma DipIsLost(table: seq<real>, k: nat, s: real)
    requires k + 1 < |table| && table[k] >= table[k + 1] && k as real < s <= (k + 1) as real
    ensures Temp(table, Curve(table, s)) != s + OFFSET
  {
    hide FirstAtLeast, Temp, Fraction, Along;
    TempOfCurve(table, s);
    if s < (k + 1) as real {
      AlongIsBetween(s - k as real, table[k], table[k + 1]);
    }
    assert !(table[k] < Curve(table, s));
  }

  /** The other way round every table does it: the curve at the temperature of a resistance is the resistance, exactly
      if the resistance is not below the first entry and not above all of them. */
  lemma CurveOfTemp(table: seq<real>, x: real)
    requires table != []
    ensures 0.0 <= Temp(table, x) - OFFSET <= (|table| - 1) as real
    ensures Curve(table, Temp(table, x) - OFFSET) == x
            <==> table[0] <= x && exists k :: 0 <= k < |table| && x <= table[k]
  {
    hide FirstAtLeast, Fraction, Along;
    TempStaysInRange(table, x);
    TempBounds(table, x);
    var i := FirstAtLeast(table, x);
    if 0 < i < |table| {
      var a, b := table[i - 1], table[i];
      FractionAtEnds(a, b);
      AlongAndBack(x, a, b);
      if x < b {
        FractionIsMonotone(a, x, a, b);
        FractionIsMonotone(x, b, a, b);
      }
    }
  }

  lemma {:induction false} FirstIs(table: seq<real>, x: real, i: nat)
    requires i <= |table| && (forall k :: 0 <= k < i ==> table[k] < x) && (i < |table| ==> x <= table[i])
    ensures FirstAtLeast(table, x) == i
  {
    if i == 0 {
    } else {
      FirstIs(table[1..], x, i - 1);
    }
  }

  /** In numbers: -200 degrees up to the first entry, a degree for every further entry, and between two entries a line.
      Above all entries it stays at the last degree. */
  lemma TempInNumbers(table: seq<real>, x: real, i: nat)
    requires table != [] && i <= |table| && (forall k :: 0 <= k < i ==> table[k] < x) && (i < |table| ==> x <= table[i])
    ensures i == 0 ==> Temp(table, x) == -200.0
    ensures i == |table| ==> Temp(table, x) == |table| as real - 201.0
    ensures 0 < i < |table| ==>
              (Temp(table, x) + 200.0 - (i - 1) as real) * (table[i] - table[i - 1]) == x - table[i - 1]
  {
    hide FirstAtLeast;
    FirstIs(table, x, i);
    if 0 < i < |table| {
      var f := Fraction(x, table[i - 1], table[i]);
      assert f * (table[i] - table[i - 1]) == x - table[i - 1];
      assert Temp(table, x) + 200.0 - (i - 1) as real == f;
    }
  }

  /** The curve at a whole degree and between two of them. */
  lemma CurveInNumbers(table: seq<real>, k: nat, f: real)
    requires k < |table| && 0.0 <= f < 1.0 && (f > 0.0 ==> k + 1 < |table|)
    ensures 0.0 <= k as real + f <= (|table| - 1) as real
    ensures f == 0.0 ==> Curve(table, k as real + f) == table[k]
    ensures f > 0.0 ==> Curve(table, k as real + f) == table[k] + f * (table[k + 1] - table[k])
  {
    assert (k as real + f).Floor == k;
  }
}
