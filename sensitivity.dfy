/**
 * Sensitivity analysis: one process variable is swept over a closed
 * interval while all other parameters stay fixed, and the mean residual
 * moisture of a fresh simulation is recorded at each sample.
 */
module Sensitivity {
  import opened Series
  import opened Drying

  /** Number of evenly spaced samples taken over the interval. */
  const SampleCount: nat := 20

  /** The variables the dashboard offers for a sensitivity analysis. */
  datatype Key = Temperature | AirSpeed | ResidenceTime | WetWeight

  /** Value of the selected variable in a parameter set. */
  function Get(p: Params, key: Key): real
  {
    match key
    case Temperature => p.temperature
    case AirSpeed => p.airSpeed
    case ResidenceTime => p.residenceTime
    case WetWeight => p.wetWeight
  }

  /**
   * A copy of the parameter set with one variable overridden: the selected
   * variable reads v and every other parameter is unchanged.
   */
  function With(p: Params, key: Key, v: real): (q: Params)
    ensures Get(q, key) == v
    ensures forall k :: k != key ==> Get(q, k) == Get(p, k)
    ensures q.thickness == p.thickness && q.airHumidity == p.airHumidity && q.numLines == p.numLines
  {
    match key
    case Temperature => p.(temperature := v)
    case AirSpeed => p.(airSpeed := v)
    case ResidenceTime => p.(residenceTime := v)
    case WetWeight => p.(wetWeight := v)
  }

  /** v lies in the closed interval between lo and hi, whichever is larger. */
  predicate Between(lo: real, hi: real, v: real)
  {
    (lo <= v <= hi) || (hi <= v <= lo)
  }

  /** Sample k of SampleCount evenly spaced points from lo to hi. */
  function SampleValue(lo: real, hi: real, k: int): real
  {
    lo + k as real * ((hi - lo) / (SampleCount - 1) as real)
  }

  /** The first sample is lo and the last is hi. */
  lemma SampleEndpoints(lo: real, hi: real)
    ensures SampleValue(lo, hi, 0) == lo
    ensures SampleValue(lo, hi, SampleCount - 1) == hi
  {
  }

  /** Every sample lies between lo and hi. */
  lemma SampleBetween(lo: real, hi: real, k: int)
    requires 0 <= k < SampleCount
    ensures Between(lo, hi, SampleValue(lo, hi, k))
  {
    var step := (hi - lo) / (SampleCount - 1) as real;
    var t, last := k as real, (SampleCount - 1) as real;
    assert last * step == hi - lo;
    assert hi - SampleValue(lo, hi, k) == (last - t) * step;
    if step >= 0.0 {
      ScaleMonotone(0.0, t, step, step);
      ScaleMonotone(0.0, last - t, step, step);
    } else {
      ScaleMonotone(0.0, t, -step, -step);
      ScaleMonotone(0.0, last - t, -step, -step);
    }
  }

  /** Consecutive samples are one step of (hi - lo)/(SampleCount - 1) apart, so the samples ascend when lo < hi. */
  lemma SampleStep(lo: real, hi: real, j: int, k: int)
    requires 0 <= j < k < SampleCount
    ensures SampleValue(lo, hi, k) - SampleValue(lo, hi, j) == (k - j) as real * ((hi - lo) / (SampleCount - 1) as real)
    ensures lo < hi ==> SampleValue(lo, hi, j) < SampleValue(lo, hi, k)
    ensures lo == hi ==> SampleValue(lo, hi, j) == SampleValue(lo, hi, k)
  {
    var step := (hi - lo) / (SampleCount - 1) as real;
    assert k as real * step - j as real * step == (k - j) as real * step;
    if lo < hi {
      assert step > 0.0;
      assert (k - j) as real * step > 0.0;
    }
  }

  /** The swept values, in sweep order. */
  function SweepValues(lo: real, hi: real): (vs: seq<real>)
    ensures |vs| == SampleCount
    ensures forall k :: 0 <= k < |vs| ==> vs[k] == SampleValue(lo, hi, k)
  {
    seq(SampleCount, k => SampleValue(lo, hi, k))
  }

  /**
   * The sweep takes SampleCount evenly spaced values from lo to hi, both
   * included, each between the two bounds, ascending when lo < hi.
   */
  lemma SweepValuesEvenlySpaced(lo: real, hi: real)
    ensures |SweepValues(lo, hi)| == SampleCount
    ensures SweepValues(lo, hi)[0] == lo && SweepValues(lo, hi)[SampleCount - 1] == hi
    ensures forall k :: 0 <= k < SampleCount ==> Between(lo, hi, SweepValues(lo, hi)[k])
    ensures forall j, k :: 0 <= j < k < SampleCount ==>
              SweepValues(lo, hi)[k] - SweepValues(lo, hi)[j] == (k - j) as real * ((hi - lo) / (SampleCount - 1) as real)
    ensures lo < hi ==> forall j, k :: 0 <= j < k < SampleCount ==> SweepValues(lo, hi)[j] < SweepValues(lo, hi)[k]
  {
    SampleEndpoints(lo, hi);
    forall k | 0 <= k < SampleCount
      ensures Between(lo, hi, SweepValues(lo, hi)[k])
    {
      SampleBetween(lo, hi, k);
    }
    forall j, k | 0 <= j < k < SampleCount
      ensures SweepValues(lo, hi)[k] - SweepValues(lo, hi)[j] == (k - j) as real * ((hi - lo) / (SampleCount - 1) as real)
      ensures lo < hi ==> SweepValues(lo, hi)[j] < SweepValues(lo, hi)[k]
    {
      SampleStep(lo, hi, j, k);
    }
  }

  /** The domain constraints on a swept variable are intervals, so they hold between two points where they hold. */
  lemma SweptParamsInDomain(p: Params, key: Key, lo: real, hi: real, v: real)
    requires InDomain(With(p, key, lo)) && InDomain(With(p, key, hi))
    requires Between(lo, hi, v)
    ensures InDomain(With(p, key, v))
  {
  }

  /**
   * Runs the sweep: for each swept value, a copy of the base parameters
   * with that value for the selected variable is simulated and the mean
   * residual moisture recorded. The base parameters are a value and are
   * left as they were.
   */
  method Sweep(p: Params, key: Key, lo: real, hi: real, law: Params -> real)
    returns (values: seq<real>, means: seq<real>)
    requires InDomain(With(p, key, lo)) && InDomain(With(p, key, hi)) && ValidLaw(law)
    ensures values == SweepValues(lo, hi)
    ensures |means| == SampleCount
    ensures forall k :: 0 <= k < SampleCount ==>
              InDomain(With(p, key, values[k])) && means[k] == MeanMoisture(With(p, key, values[k]), law)
  {
    values := SweepValues(lo, hi);
    means := [];
    for k := 0 to SampleCount
      invariant |means| == k
      invariant forall j :: 0 <= j < k ==>
                  InDomain(With(p, key, values[j])) && means[j] == MeanMoisture(With(p, key, values[j]), law)
    {
      var temp := With(p, key, values[k]);
      SampleBetween(lo, hi, k);
      SweptParamsInDomain(p, key, lo, hi, values[k]);
      var moisture := Simulate(temp, law);
      means := means + [Mean(moisture)];
    }
  }

  /** The drying law removes no less water as the swept variable grows between lo and hi. */
  ghost predicate DriesMoreAsGrows(law: Params -> real, p: Params, key: Key, lo: real, hi: real)
  {
    forall u, v :: lo <= u <= v <= hi ==> law(With(p, key, u)) <= law(With(p, key, v))
  }

  /**
   * Of two samples of an upward sweep of temperature, air speed or residence
   * time, the later one leaves no more mean moisture, provided the drying
   * law removes no less water as that variable grows.
   */
  lemma SampleResponseOrdered(p: Params, key: Key, lo: real, hi: real, law: Params -> real, j: int, k: int)
    requires key != WetWeight && lo <= hi
    requires InDomain(With(p, key, lo)) && InDomain(With(p, key, hi)) && ValidLaw(law)
    requires DriesMoreAsGrows(law, p, key, lo, hi)
    requires 0 <= j < k < SampleCount
    ensures InDomain(With(p, key, SampleValue(lo, hi, j))) && InDomain(With(p, key, SampleValue(lo, hi, k)))
    ensures MeanMoisture(With(p, key, SampleValue(lo, hi, k)), law) <= MeanMoisture(With(p, key, SampleValue(lo, hi, j)), law)
  {
    var u, v := SampleValue(lo, hi, j), SampleValue(lo, hi, k);
    var pj, pk := With(p, key, u), With(p, key, v);
    SampleBetween(lo, hi, j);
    SampleBetween(lo, hi, k);
    SampleStep(lo, hi, j, k);
    SweptParamsInDomain(p, key, lo, hi, u);
    SweptParamsInDomain(p, key, lo, hi, v);
    assert law(pj) <= law(pk);
    // Only the drying law sees the swept variable: pk is pj with more base evaporation.
    var water := InitialWater(pj);
    assert InitialWater(pk) == water;
    var bj, bk := EvaporatedBase(water, law(pj)), EvaporatedBase(water, law(pk));
    BaseOrdered(water, law(pj), law(pk));
    assert Profile(pk, bk) == Profile(pj, bk);
    MoreEvaporationLowersMoisture(pj, bj, bk);
  }

  /** A drying law that removes a larger fraction removes no less base water. */
  lemma BaseOrdered(water: real, a: real, b: real)
    requires water > 0.0 && 0.0 <= a <= b < 1.0
    ensures EvaporatedBase(water, a) <= EvaporatedBase(water, b)
  {
    ScaleMonotone(water, water, a, b);
  }

  /**
   * Sweeping temperature, air speed or residence time upwards gives a
   * non-increasing response curve whenever the drying law removes no less
   * water as that variable grows (as 1 - exp(-x) does: x grows with each of
   * them).
   */
  lemma SweepResponseNonIncreasing(p: Params, key: Key, lo: real, hi: real, law: Params -> real)
    requires key != WetWeight && lo <= hi
    requires InDomain(With(p, key, lo)) && InDomain(With(p, key, hi)) && ValidLaw(law)
    requires DriesMoreAsGrows(law, p, key, lo, hi)
    ensures forall k :: 0 <= k < SampleCount ==> InDomain(With(p, key, SweepValues(lo, hi)[k]))
    ensures forall j, k :: 0 <= j < k < SampleCount ==>
              MeanMoisture(With(p, key, SweepValues(lo, hi)[k]), law) <= MeanMoisture(With(p, key, SweepValues(lo, hi)[j]), law)
  {
    forall k | 0 <= k < SampleCount
      ensures InDomain(With(p, key, SweepValues(lo, hi)[k]))
    {
      SampleBetween(lo, hi, k);
      SweptParamsInDomain(p, key, lo, hi, SampleValue(lo, hi, k));
    }
    forall j, k | 0 <= j < k < SampleCount
      ensures MeanMoisture(With(p, key, SweepValues(lo, hi)[k]), law) <= MeanMoisture(With(p, key, SweepValues(lo, hi)[j]), law)
    {
      SampleResponseOrdered(p, key, lo, hi, law, j, k);
    }
  }
}
