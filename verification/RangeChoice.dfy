/** Choosing the measuring range for two physical limits: QueryRangeByMinMax_calculate and QueryRangeByMinMax_Local
    (library/meids_local_calls.c). The answers of the driver are parameters. */
module RangeChoice {
  import opened Defines
  import opened Reals

  const TOLERANCE := 0.0001
  const FLT_MAX := 340282346638528859811704183484516925440.0

  /** The answer of the driver to a query of one range; min and max mean something if err is ERRNO_SUCCESS. */
  datatype Info = Info(err: int, min: real, max: real)

  predicate Fits(i: Info, min: real, max: real) {
    var tolerance := (i.max - i.min) * TOLERANCE;
    i.min - tolerance <= min && i.max + tolerance >= max
  }

  function Square(x: real): (r: real)
    ensures r >= 0.0
    ensures r == 0.0 <==> x == 0.0
  {
    hide Product;
    SignOfProduct(x, x);
    Product(x, x)
  }

  /** The squared distance of the end points. */
  function Distance(i: Info, min: real, max: real): (r: real)
    ensures r >= 0.0
    ensures r == 0.0 <==> i.min == min && i.max == max
  {
    Square(i.max - max) + Square(i.min - min)
  }

  predicate Candidate(i: Info, min: real, max: real) {
    Fits(i, min, max) && Distance(i, min, max) < FLT_MAX
  }

  /** r is the least index of a candidate at the least distance; -1 if there is no candidate. */
  predicate IsBest(infos: seq<Info>, min: real, max: real, r: int) {
    if r < 0 then r == -1 && forall k :: 0 <= k < |infos| ==> !Candidate(infos[k], min, max)
    else
      && r < |infos| && Candidate(infos[r], min, max)
      && forall k :: 0 <= k < |infos| && Fits(infos[k], min, max) ==>
           if k < r then Distance(infos[k], min, max) > Distance(infos[r], min, max)
           else Distance(infos[k], min, max) >= Distance(infos[r], min, max)
  }

  /** The number of ranges before the first one that the driver fails to describe. */
  function Readable(infos: seq<Info>): (r: nat)
    ensures r <= |infos|
    ensures forall k :: 0 <= k < r ==> infos[k].err == ERRNO_SUCCESS
    ensures r < |infos| ==> infos[r].err != ERRNO_SUCCESS
  {
    if infos == [] || infos[0].err != ERRNO_SUCCESS then 0 else 1 + Readable(infos[1..])
  }

  /** Exact limits fit if they are not reversed. */
  lemma ExactFits(i: Info, min: real, max: real)
    ensures Fits(i, min, max) && Distance(i, min, max) == 0.0 <==> i.min == min <= max == i.max
  {
  }

  /** QueryRangeByMinMax_calculate. The early exit at a perfect match does not change the answer of the full scan; it
      only keeps the search from meeting a later failure of the driver. */
  method Calculate(numberErr: int, infos: seq<Info>, min: real, max: real, oldRange: int) returns (err: int, range: int)
    ensures numberErr != ERRNO_SUCCESS ==> err == numberErr && range == oldRange
    ensures numberErr == ERRNO_SUCCESS ==>
            var known := infos[..Readable(infos)];
            if known == infos || exists i :: i in known && i.min == min <= max == i.max then
              IsBest(known, min, max, range) && err == if range < 0 then ERRNO_NO_RANGE else ERRNO_SUCCESS
            else err == infos[Readable(infos)].err && range == oldRange
  {
    hide Fits, Distance;
    range := oldRange;
    err := numberErr;
    if err != ERRNO_SUCCESS {
      return;
    }
    var r, diff, i := -1, FLT_MAX, 0;
    ghost var known := infos[..Readable(infos)];
    while i < |infos|
      invariant 0 <= i <= |known| && -1 <= r < i
      invariant forall k :: 0 <= k < i ==> !(infos[k].min == min <= max == infos[k].max)
      invariant diff == if r < 0 then FLT_MAX else Distance(infos[r], min, max)
      invariant IsBest(infos[..i], min, max, r)
    {
      err := infos[i].err;
      if err != ERRNO_SUCCESS {
        return;
      }
      ExactFits(infos[i], min, max);
      if Fits(infos[i], min, max) {
        var rangeDiff := Distance(infos[i], min, max);
        ghost var before := r;
        if rangeDiff < diff {
          r := i;
          diff := rangeDiff;
        }
        BestStep(infos, i, min, max, before, r);
        if rangeDiff == 0.0 {
          NothingIsBetter(infos, i, min, max, r);
          assert known[i] in known;
          PrefixIsBest(infos, i + 1, |known|, min, max, r);
          break;
        }
      }
      i := i + 1;
    }
    range := r;
    err := if r < 0 then ERRNO_NO_RANGE else ERRNO_SUCCESS;
  }

  lemma BestStep(infos: seq<Info>, i: nat, min: real, max: real, before: int, r: int)
    requires i < |infos| && Fits(infos[i], min, max) && IsBest(infos[..i], min, max, before)
    requires r == if Distance(infos[i], min, max) < (if before < 0 then FLT_MAX
                                                     else Distance(infos[before], min, max)) then i else before
    ensures IsBest(infos[..i + 1], min, max, r)
  {
    hide Fits, Distance;
  }

  lemma NothingIsBetter(infos: seq<Info>, i: nat, min: real, max: real, r: int)
    requires i < |infos| && IsBest(infos[..i + 1], min, max, r)
    requires Fits(infos[i], min, max) && Distance(infos[i], min, max) == 0.0
    ensures r >= 0 && Distance(infos[r], min, max) == 0.0
  {
  }

  lemma PrefixIsBest(infos: seq<Info>, i: nat, n: nat, min: real, max: real, r: nat)
    requires i <= n <= |infos| && IsBest(infos[..i], min, max, r) && Distance(infos[r], min, max) == 0.0
    ensures IsBest(infos[..n], min, max, r)
  {
  }

  /** The answer is determined. */
  lemma BestIsUnique(infos: seq<Info>, min: real, max: real, r: int, s: int)
    requires IsBest(infos, min, max, r) && IsBest(infos, min, max, s)
    ensures r == s
  {
  }

  /** One range in numbers. */
  lemma ItemInNumbers(i: Info, min: real, max: real)
    ensures Fits(i, min, max) <==>
            !(min < i.min - 0.0001 * (i.max - i.min)) && !(max > i.max + 0.0001 * (i.max - i.min))
    ensures Distance(i, min, max) == (i.max - max) * (i.max - max) + (i.min - min) * (i.min - min)
  {
  }

  /** The answer in numbers. No range is chosen exactly if each is refused: it ends below or above the limits by more
      than one part in 10000 of its width, or its squared distance is not below FLT_MAX. Otherwise the choice is the
      first one among the others that is nearest to the limits. */
  lemma AnswerInNumbers(infos: seq<Info>, min: real, max: real, r: int)
    requires IsBest(infos, min, max, r)
    ensures -1 <= r < |infos|
    ensures r == -1 <==>
            forall k :: 0 <= k < |infos| ==>
              var i := infos[k];
              || min < i.min - 0.0001 * (i.max - i.min)
              || max > i.max + 0.0001 * (i.max - i.min)
              || (i.max - max) * (i.max - max) + (i.min - min) * (i.min - min)
                 >= 340282346638528859811704183484516925440.0
    ensures r >= 0 ==>
              var i := infos[r];
              && i.min - 0.0001 * (i.max - i.min) <= min && max <= i.max + 0.0001 * (i.max - i.min)
              && (i.max - max) * (i.max - max) + (i.min - min) * (i.min - min)
                 < 340282346638528859811704183484516925440.0
    ensures r >= 0 ==>
              forall k :: 0 <= k < |infos| ==>
                var i, j := infos[k], infos[r];
                var far := (i.max - max) * (i.max - max) + (i.min - min) * (i.min - min);
                var near := (j.max - max) * (j.max - max) + (j.min - min) * (j.min - min);
                || min < i.min - 0.0001 * (i.max - i.min)
                || max > i.max + 0.0001 * (i.max - i.min)
                || (if k < r then near < far else near <= far)
  {
    hide Fits, Distance;
    forall k | 0 <= k < |infos|
      ensures Fits(infos[k], min, max) <==>
              && !(min < infos[k].min - 0.0001 * (infos[k].max - infos[k].min))
              && !(max > infos[k].max + 0.0001 * (infos[k].max - infos[k].min))
      ensures Distance(infos[k], min, max) ==
              (infos[k].max - max) * (infos[k].max - max) + (infos[k].min - min) * (infos[k].min - min) {
      ItemInNumbers(infos[k], min, max);
    }
  }

  /** The limits of a listed range choose the first range with exactly these limits. */
  lemma ExactLimits(infos: seq<Info>, k: nat, r: int)
    requires k < |infos| && infos[k].min <= infos[k].max && IsBest(infos, infos[k].min, infos[k].max, r)
    ensures 0 <= r <= k && infos[r].min == infos[k].min && infos[r].max == infos[k].max
    ensures forall j :: 0 <= j < r ==> infos[j].min != infos[k].min || infos[j].max != infos[k].max
  {
  }

  /** A chosen range may be narrower than the limits, but by no more than the tolerance at each end. */
  lemma ChosenRangeCovers(infos: seq<Info>, min: real, max: real, r: nat)
    requires IsBest(infos, min, max, r) && min <= max
    ensures infos[r].max - infos[r].min >= (max - min) / (1.0 + 2.0 * TOLERANCE)
  {
  }

  /** QueryRangeByMinMax_Local. The driver is asked once more about the chosen range: `again` is its answer, and
      `written` says whether the limits were delivered although it reported an error. */
  method QueryRangeByMinMax(numberErr: int, infos: seq<Info>, again: Info, written: bool, min: real, max: real,
                            oldRange: int)
    returns (err: int, range: int, newMin: real, newMax: real)
    ensures max < min ==> err == ERRNO_INVALID_MIN_MAX && range == oldRange
    ensures err == ERRNO_SUCCESS ==> min <= max && 0 <= range < |infos| && newMin == again.min && newMax == again.max
    ensures numberErr == ERRNO_SUCCESS && Readable(infos) == |infos| && min <= max ==>
            && IsBest(infos, min, max, range)
            && err == (if range < 0 then ERRNO_NO_RANGE else again.err)
            && (newMin, newMax) == if range >= 0 && (err == ERRNO_SUCCESS || written) then (again.min, again.max)
                else (min, max)
    ensures again.err != ERRNO_SUCCESS ==> err != ERRNO_SUCCESS
  {
    hide Candidate;
    range, newMin, newMax := oldRange, min, max;
    if max < min {
      err := ERRNO_INVALID_MIN_MAX;
      return;
    }
    err, range := Calculate(numberErr, infos, min, max, oldRange);
    if err == ERRNO_SUCCESS {
      err := again.err;
      if err == ERRNO_SUCCESS || written {
        newMin, newMax := again.min, again.max;
      }
    }
  }
}
