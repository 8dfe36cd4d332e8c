/**
 * Per-line drying model of the industrial dryer simulator: from one set of
 * process parameters it computes the residual moisture (wet basis, percent)
 * of the pieces leaving each line of a multi-line dryer.
 *
 * The base amount of water a fully exposed line removes is
 *   initial water · (1 - exp(-0.05 · t · (T/90)^1.5 · (v/1.5)^0.8 · (1 - RH/100))).
 * The exponential and the fractional powers have no counterpart over the
 * reals here, so the fraction in parentheses is a parameter of the model:
 * a drying law `law`, known only to lie in [0, 1) on the parameter domain,
 * which is what 1 - exp(-x) does for x >= 0.
 */
module Drying {
  import opened Series

  /** Fixed dry (non-water) mass of one piece, in grams. */
  const DryWeight: real := 50.0

  /** Uniformity factor of the two outermost lines. */
  const EdgeFactor: real := 0.85
  /** Uniformity factor of the two lines next to the outermost ones. */
  const NearEdgeFactor: real := 0.95
  /** Uniformity factor of every interior line. */
  const InteriorFactor: real := 1.0

  /** The process parameters of one evaluation. */
  datatype Params = Params(
    wetWeight: real,      // initial wet weight of a piece (g)
    thickness: real,      // material thickness (mm); the model never reads it
    temperature: real,    // dryer temperature (°C)
    airSpeed: real,       // air speed (m/s)
    residenceTime: real,  // residence time (min)
    airHumidity: real,    // relative humidity of the inlet air (%)
    numLines: int         // number of lines in the dryer
  )

  /**
   * The parameter domain on which the model is defined: a piece holds some
   * water, temperature and air speed are not negative (a fractional power of
   * a negative number has no real value), the residence time is positive,
   * the inlet air is at most saturated and there is at least one line.
   */
  predicate InDomain(p: Params)
  {
    && p.wetWeight > DryWeight
    && p.temperature >= 0.0
    && p.airSpeed >= 0.0
    && p.residenceTime > 0.0
    && p.airHumidity <= 100.0
    && p.numLines >= 1
  }

  /** A drying law removes a fraction in [0, 1) of the initial water on the whole domain. */
  ghost predicate ValidLaw(law: Params -> real)
  {
    forall p :: InDomain(p) ==> 0.0 <= law(p) < 1.0
  }

  /** Water initially held by one piece, in grams. */
  function InitialWater(p: Params): real
  {
    p.wetWeight - DryWeight
  }

  /**
   * Water a fully exposed line removes from one piece holding `initialWater`
   * grams when the drying law gives `fraction`: never negative and always
   * less than the piece holds.
   */
  function EvaporatedBase(initialWater: real, fraction: real): (w: real)
    requires initialWater > 0.0 && 0.0 <= fraction < 1.0
    ensures 0.0 <= w < initialWater
  {
    initialWater * fraction
  }

  /** The base evaporation is zero exactly when the drying law removes nothing. */
  lemma EvaporatedBaseZero(initialWater: real, fraction: real)
    requires initialWater > 0.0 && 0.0 <= fraction < 1.0
    ensures EvaporatedBase(initialWater, fraction) == 0.0 <==> fraction == 0.0
  {
  }

  /** Products of non-negative factors grow with each factor, strictly when the other factor is positive. */
  lemma ScaleMonotone(a1: real, a2: real, c1: real, c2: real)
    requires 0.0 <= a1 <= a2 && 0.0 <= c1 <= c2
    ensures 0.0 <= a1 * c1 <= a2 * c2
    ensures (a1 < a2 && c1 > 0.0) || (c1 < c2 && a2 > 0.0) ==> a1 * c1 < a2 * c2
  {
    assert a1 * c1 <= a2 * c1;
    assert a2 * c1 <= a2 * c2;
  }

  /**
   * Uniformity factor of line i of n: the outermost lines dry least, the
   * lines next to them a little more, interior lines fully. The outermost
   * rule is tried first, so it wins where the index sets meet.
   */
  function UniformityFactor(i: int, n: int): (f: real)
    ensures EdgeFactor <= f <= InteriorFactor
    ensures f == EdgeFactor <==> i == 0 || i == n - 1
    ensures f == NearEdgeFactor <==> i != 0 && i != n - 1 && (i == 1 || i == n - 2)
    ensures f == InteriorFactor <==> i != 0 && i != 1 && i != n - 2 && i != n - 1
  {
    if i == 0 || i == n - 1 then EdgeFactor
    else if i == 1 || i == n - 2 then NearEdgeFactor
    else InteriorFactor
  }

  /** Line i and its mirror line n-1-i get the same uniformity factor. */
  lemma UniformityFactorSymmetric(i: int, n: int)
    ensures UniformityFactor(i, n) == UniformityFactor(n - 1 - i, n)
  {
  }

  /**
   * Residual moisture, in percent on a wet basis, of a piece still holding
   * `water` grams of water beside its dry mass: the share of the water in
   * the piece's total mass, and 0 when no water is left. This is the
   * specification the per-line computation is held to; the division itself
   * lives in MoisturePercent.
   */
  ghost function ResidualMoisture(water: real): (m: real)
    requires water + DryWeight > 0.0
    ensures 0.0 <= m < 100.0
    ensures water >= 0.0 ==> m * (water + DryWeight) == 100.0 * water
    ensures water <= 0.0 ==> m == 0.0
  {
    WetBasisExists(water);
    var m :| IsWetBasis(water, m);
    m
  }

  /** m is the wet-basis percentage of `water`, floored at 0. */
  ghost predicate IsWetBasis(water: real, m: real)
  {
    && 0.0 <= m < 100.0
    && (water >= 0.0 ==> m * (water + DryWeight) == 100.0 * water)
    && (water <= 0.0 ==> m == 0.0)
  }

  /** Every piece that weighs something has a wet-basis moisture. */
  lemma WetBasisExists(water: real)
    requires water + DryWeight > 0.0
    ensures exists m :: IsWetBasis(water, m)
  {
    if water > 0.0 {
      var share := water / (water + DryWeight) * 100.0;
      assert share * (water + DryWeight) == 100.0 * water;
      assert IsWetBasis(water, share);
    } else {
      assert IsWetBasis(water, 0.0);
    }
  }

  /**
   * The percentage the simulation reports for one line: water over total
   * mass times 100, with a negative percentage clamped to 0. It is the wet-basis
   * residual moisture of the water left.
   */
  function MoisturePercent(water: real): (m: real)
    requires water + DryWeight > 0.0
    ensures IsWetBasis(water, m)
    ensures m == ResidualMoisture(water)
  {
    var total := water + DryWeight;
    var pct := water / total * 100.0;
    ClampedShareIsWetBasis(water, pct);
    if pct < 0.0 then 0.0 else pct
  }

  /** Water over total mass times 100, clamped at 0, meets the wet-basis definition, whose value is unique. */
  lemma ClampedShareIsWetBasis(water: real, pct: real)
    requires water + DryWeight > 0.0 && pct == water / (water + DryWeight) * 100.0
    ensures (if pct < 0.0 then 0.0 else pct) == ResidualMoisture(water)
  {
    var total, m := water + DryWeight, ResidualMoisture(water);
    if water > 0.0 {
      assert pct * total == 100.0 * water;
      assert m * total == pct * total;
    }
  }

  /** On a piece that still holds water, more water means more residual moisture, strictly more for strictly more water. */
  lemma ResidualMoistureIncreasing(w1: real, w2: real)
    requires 0.0 <= w1 <= w2
    ensures ResidualMoisture(w1) <= ResidualMoisture(w2)
    ensures w1 < w2 ==> ResidualMoisture(w1) < ResidualMoisture(w2)
  {
    var m1, m2 := ResidualMoisture(w1), ResidualMoisture(w2);
    var d1, d2 := w1 + DryWeight, w2 + DryWeight;
    assert m1 * d1 == 100.0 * w1 && m2 * d2 == 100.0 * w2;
    assert (100.0 - m1) * d1 == 100.0 * d1 - m1 * d1;
    assert (100.0 - m2) * d2 == 100.0 * d2 - m2 * d2;
    assert (100.0 - m1) * d1 == 100.0 * DryWeight == (100.0 - m2) * d2;
    if w1 < w2 {
      ScaleMonotone(100.0 - m1, 100.0 - m1, d1, d2);
      assert (100.0 - m2) * d2 < (100.0 - m1) * d2;
      CancelPositive(100.0 - m2, 100.0 - m1, d2);
    }
  }

  /** A positive common factor can be cancelled from a strict inequality. */
  lemma CancelPositive(a: real, b: real, c: real)
    requires c > 0.0 && a * c < b * c
    ensures a < b
  {
  }

  /**
   * Residual moisture of line i when a fully exposed line removes `base`
   * grams: line i removes `base` times its uniformity factor, which never
   * exceeds the water the piece held, and reports the wet-basis share of
   * the water left.
   */
  ghost function LineMoisture(p: Params, base: real, i: int): (m: real)
    requires InDomain(p) && 0.0 <= base <= InitialWater(p)
    ensures IsWetBasis(LineWater(p, base, i), m)
  {
    ResidualMoisture(LineWater(p, base, i))
  }

  /** Water left on a piece of line i once the line has removed `base` times its uniformity factor. */
  function LineWater(p: Params, base: real, i: int): (w: real)
    requires InDomain(p) && 0.0 <= base <= InitialWater(p)
    ensures 0.0 <= InitialWater(p) - base <= w <= InitialWater(p)
  {
    var f := UniformityFactor(i, p.numLines);
    ScaleMonotone(base, base, f, 1.0);
    InitialWater(p) - base * f
  }

  /**
   * The moisture column of the results table: one value per line, line 0
   * first, each a percentage in [0, 100). Entry i is the wet-basis share of
   * the water left on line i once it has removed `base` times its uniformity
   * factor, and that water is never negative.
   */
  ghost function Profile(p: Params, base: real): (r: seq<real>)
    requires InDomain(p) && 0.0 <= base <= InitialWater(p)
    ensures |r| == p.numLines
    ensures forall i :: 0 <= i < |r| ==> IsWetBasis(LineWater(p, base, i), r[i])
  {
    seq(p.numLines, i => LineMoisture(p, base, i))
  }

  /** Entry i of the moisture column is the residual moisture left on line i. */
  lemma ProfileAt(p: Params, base: real, i: int)
    requires InDomain(p) && 0.0 <= base <= InitialWater(p)
    requires 0 <= i < p.numLines
    ensures base * UniformityFactor(i, p.numLines) <= base
    ensures Profile(p, base)[i] == ResidualMoisture(InitialWater(p) - base * UniformityFactor(i, p.numLines))
  {
    assert base * UniformityFactor(i, p.numLines) <= base;
  }

  /** Without evaporation every line keeps the moisture the pieces entered with. */
  lemma ProfileWithoutEvaporation(p: Params)
    requires InDomain(p)
    ensures forall i :: 0 <= i < p.numLines ==> Profile(p, 0.0)[i] == ResidualMoisture(InitialWater(p))
    ensures Mean(Profile(p, 0.0)) == ResidualMoisture(InitialWater(p))
  {
    forall i | 0 <= i < p.numLines
      ensures Profile(p, 0.0)[i] == ResidualMoisture(InitialWater(p))
    {
      ProfileAt(p, 0.0, i);
    }
    MeanBounds(Profile(p, 0.0), ResidualMoisture(InitialWater(p)), ResidualMoisture(InitialWater(p)));
  }

  /** Mean residual moisture over all lines of one simulation. */
  ghost function MeanMoisture(p: Params, law: Params -> real): real
    requires InDomain(p) && ValidLaw(law)
  {
    Mean(Profile(p, EvaporatedBase(InitialWater(p), law(p))))
  }

  /**
   * Runs the simulation: computes the base evaporated water once, then
   * appends the residual moisture of each line in line order.
   */
  method Simulate(p: Params, law: Params -> real) returns (moisture: seq<real>)
    requires InDomain(p) && ValidLaw(law)
    ensures moisture == Profile(p, EvaporatedBase(InitialWater(p), law(p)))
  {
    var initialWater := p.wetWeight - DryWeight;
    var base := initialWater * law(p);
    assert base == EvaporatedBase(InitialWater(p), law(p));
    moisture := [];
    var i := 0;
    while i < p.numLines
      invariant 0 <= i <= p.numLines
      invariant moisture == Profile(p, base)[..i]
    {
      var factor := UniformityFactor(i, p.numLines);
      var evaporatedLine := base * factor;
      var finalWater := initialWater - evaporatedLine;
      assert evaporatedLine <= base;
      var lineMoisture := MoisturePercent(finalWater);
      ProfileAt(p, base, i);
      assert Profile(p, base)[..i + 1] == Profile(p, base)[..i] + [Profile(p, base)[i]];
      moisture := moisture + [lineMoisture];
      i := i + 1;
    }
  }

  /** Line i and its mirror line n-1-i always end with the same residual moisture. */
  lemma ProfileSymmetric(p: Params, base: real, i: int)
    requires InDomain(p) && 0.0 <= base <= InitialWater(p)
    requires 0 <= i < p.numLines
    ensures Profile(p, base)[i] == Profile(p, base)[p.numLines - 1 - i]
  {
    UniformityFactorSymmetric(i, p.numLines);
  }

  /**
   * A line with a smaller uniformity factor keeps at least as much moisture,
   * and strictly more when any water is removed at all.
   */
  lemma FactorOrdersMoisture(p: Params, base: real, j: int, k: int)
    requires InDomain(p) && 0.0 <= base <= InitialWater(p)
    requires 0 <= j < p.numLines && 0 <= k < p.numLines
    requires UniformityFactor(j, p.numLines) <= UniformityFactor(k, p.numLines)
    ensures Profile(p, base)[k] <= Profile(p, base)[j]
    ensures base > 0.0 && UniformityFactor(j, p.numLines) < UniformityFactor(k, p.numLines)
            ==> Profile(p, base)[k] < Profile(p, base)[j]
  {
    assert Profile(p, base)[j] == LineMoisture(p, base, j) && Profile(p, base)[k] == LineMoisture(p, base, k);
    LinesOrderedByFactor(p, base, j, k);
  }

  /** Of two lines, the one with the larger uniformity factor keeps no more moisture, strictly less when water is removed. */
  lemma LinesOrderedByFactor(p: Params, base: real, j: int, k: int)
    requires InDomain(p) && 0.0 <= base <= InitialWater(p)
    requires UniformityFactor(j, p.numLines) <= UniformityFactor(k, p.numLines)
    ensures LineMoisture(p, base, k) <= LineMoisture(p, base, j)
    ensures base > 0.0 && UniformityFactor(j, p.numLines) < UniformityFactor(k, p.numLines)
            ==> LineMoisture(p, base, k) < LineMoisture(p, base, j)
  {
    LineWaterOrdered(p, base, j, k);
    ResidualMoistureIncreasing(LineWater(p, base, k), LineWater(p, base, j));
  }

  /** The line with the larger uniformity factor is left with no more water, strictly less when water is removed. */
  lemma LineWaterOrdered(p: Params, base: real, j: int, k: int)
    requires InDomain(p) && 0.0 <= base <= InitialWater(p)
    requires UniformityFactor(j, p.numLines) <= UniformityFactor(k, p.numLines)
    ensures LineWater(p, base, k) <= LineWater(p, base, j)
    ensures base > 0.0 && UniformityFactor(j, p.numLines) < UniformityFactor(k, p.numLines)
            ==> LineWater(p, base, k) < LineWater(p, base, j)
  {
    ScaleMonotone(base, base, UniformityFactor(j, p.numLines), UniformityFactor(k, p.numLines));
  }

  /**
   * Edge lines dry least: the outermost lines end with at least the moisture
   * of every line, strictly more than any non-edge line when water is removed.
   */
  lemma EdgeLinesWettest(p: Params, base: real, k: int)
    requires InDomain(p) && 0.0 <= base <= InitialWater(p)
    requires 0 <= k < p.numLines
    ensures Profile(p, base)[k] <= Profile(p, base)[0]
    ensures Profile(p, base)[k] <= Profile(p, base)[p.numLines - 1]
    ensures base > 0.0 && k != 0 && k != p.numLines - 1
            ==> Profile(p, base)[k] < Profile(p, base)[0] && Profile(p, base)[k] < Profile(p, base)[p.numLines - 1]
  {
    FactorOrdersMoisture(p, base, 0, k);
    FactorOrdersMoisture(p, base, p.numLines - 1, k);
  }

  /** Interior lines dry most: an interior line ends with no more moisture than any line. */
  lemma InteriorLinesDriest(p: Params, base: real, j: int, k: int)
    requires InDomain(p) && 0.0 <= base <= InitialWater(p)
    requires 0 <= j < p.numLines && 0 <= k < p.numLines
    requires 2 <= j < p.numLines - 2
    ensures Profile(p, base)[j] <= Profile(p, base)[k]
    ensures base > 0.0 && (k <= 1 || k >= p.numLines - 2) ==> Profile(p, base)[j] < Profile(p, base)[k]
  {
    FactorOrdersMoisture(p, base, k, j);
  }

  /** One line keeps no more moisture when more base water is removed, and strictly less when strictly more is. */
  lemma LineDriesWithEvaporation(p: Params, base1: real, base2: real, i: int)
    requires InDomain(p) && 0.0 <= base1 <= base2 <= InitialWater(p) && 0 <= i < p.numLines
    ensures LineMoisture(p, base2, i) <= LineMoisture(p, base1, i)
    ensures base1 < base2 ==> LineMoisture(p, base2, i) < LineMoisture(p, base1, i)
  {
    LeftoverMoistureDecreasing(InitialWater(p), base1, base2, UniformityFactor(i, p.numLines));
  }

  /** Removing more base water, scaled by the same factor, leaves no more moisture. */
  lemma LeftoverMoistureDecreasing(water: real, base1: real, base2: real, f: real)
    requires 0.0 <= base1 <= base2 <= water && 0.85 <= f <= 1.0
    ensures water - base2 * f + DryWeight > 0.0 && water - base1 * f + DryWeight > 0.0
    ensures ResidualMoisture(water - base2 * f) <= ResidualMoisture(water - base1 * f)
    ensures base1 < base2 ==> ResidualMoisture(water - base2 * f) < ResidualMoisture(water - base1 * f)
  {
    WaterLeftOrdered(water, base1, base2, f);
    ResidualMoistureIncreasing(water - base2 * f, water - base1 * f);
  }

  /** The water left after removing base·f grams is not negative and shrinks as the base grows. */
  lemma WaterLeftOrdered(water: real, base1: real, base2: real, f: real)
    requires 0.0 <= base1 <= base2 <= water && 0.0 < f <= 1.0
    ensures 0.0 <= water - base2 * f <= water - base1 * f
    ensures base1 < base2 ==> water - base2 * f < water - base1 * f
  {
    ScaleMonotone(base1, base2, f, f);
    ScaleMonotone(base2, base2, f, 1.0);
  }

  /**
   * Removing more water from the fully exposed line lowers the moisture of
   * every line and the mean moisture, strictly when strictly more is removed.
   */
  lemma MoreEvaporationLowersMoisture(p: Params, base1: real, base2: real)
    requires InDomain(p) && 0.0 <= base1 <= base2 <= InitialWater(p)
    ensures forall i :: 0 <= i < p.numLines ==> Profile(p, base2)[i] <= Profile(p, base1)[i]
    ensures Mean(Profile(p, base2)) <= Mean(Profile(p, base1))
    ensures base1 < base2 ==>
              (forall i :: 0 <= i < p.numLines ==> Profile(p, base2)[i] < Profile(p, base1)[i])
              && Mean(Profile(p, base2)) < Mean(Profile(p, base1))
  {
    var r1, r2 := Profile(p, base1), Profile(p, base2);
    forall i | 0 <= i < p.numLines
      ensures r2[i] <= r1[i]
      ensures base1 < base2 ==> r2[i] < r1[i]
    {
      assert r1[i] == LineMoisture(p, base1, i) && r2[i] == LineMoisture(p, base2, i);
      LineDriesWithEvaporation(p, base1, base2, i);
    }
    MeanMonotone(r2, r1);
  }
}
