/**
 * Key performance indicators of one simulation: mean residual moisture,
 * evaporation rate, hourly energy cost and a three-level quality risk.
 */
module Kpis {
  import opened Series
  import opened Drying

  /** Air density at operating temperature (kg/m³). */
  const AirDensity: real := 1.0
  /** Specific heat of air (J/(kg·K)). */
  const AirSpecificHeat: real := 1005.0
  /** Energy price ($/kWh). */
  const PricePerKwh: real := 0.15
  /** Ambient temperature the inlet air is heated from (°C). */
  const AmbientTemperature: real := 25.0
  /** Width of the dryer cross-section taken by one line (m). */
  const LineWidth: real := 0.5
  /** Fan power coefficient of the cubic fan model (kW per (m/s)³ per line). */
  const FanCoefficient: real := 2.5

  /** Quality risk, from lowest to highest. */
  datatype Risk = Low | Medium | High

  /** The indicators reported for one parameter set. */
  datatype Report = Report(meanMoisture: real, energyCost: real, evaporationRate: real, risk: Risk)

  /** Rank of a risk level, so that levels can be compared. */
  function Severity(r: Risk): nat
  {
    match r
    case Low => 0
    case Medium => 1
    case High => 2
  }

  /** If b is positive, a·b has the sign of a. */
  lemma SignOfProduct(a: real, b: real)
    requires b > 0.0
    ensures a * b > 0.0 <==> a > 0.0
    ensures a * b == 0.0 <==> a == 0.0
  {
  }

  /** Pieces leaving the dryer per hour: each line delivers one piece per residence time. */
  function PiecesPerHour(p: Params): (r: real)
    requires p.residenceTime != 0.0
    ensures r * p.residenceTime == 60.0 * p.numLines as real
  {
    (60.0 / p.residenceTime) * p.numLines as real
  }

  /**
   * Water evaporated per hour (kg/h): water removed from one piece times the
   * pieces per hour. The final water of a piece is estimated by applying the
   * mean moisture to the wet weight.
   */
  function EvaporationRate(p: Params, meanMoisture: real): real
    requires p.residenceTime != 0.0
  {
    var initialWaterKg := (p.wetWeight - DryWeight) / 1000.0;
    var finalWaterKgAvg := meanMoisture / 100.0 * p.wetWeight / 1000.0;
    var evaporatedPerPiece := initialWaterKg - finalWaterKgAvg;
    evaporatedPerPiece * PiecesPerHour(p)
  }

  /**
   * The evaporation rate is positive exactly when the mean moisture is below
   * the initial wet-basis moisture 100·(wet weight - 50)/wet weight, and zero
   * exactly when it equals it.
   */
  lemma EvaporationRateSign(p: Params, meanMoisture: real)
    requires p.residenceTime > 0.0 && p.numLines >= 1
    ensures EvaporationRate(p, meanMoisture) > 0.0 <==> meanMoisture * p.wetWeight < 100.0 * InitialWater(p)
    ensures EvaporationRate(p, meanMoisture) == 0.0 <==> meanMoisture * p.wetWeight == 100.0 * InitialWater(p)
  {
    var evaporatedPerPiece := (p.wetWeight - DryWeight) / 1000.0 - meanMoisture / 100.0 * p.wetWeight / 1000.0;
    assert evaporatedPerPiece == (100.0 * InitialWater(p) - meanMoisture * p.wetWeight) / 100000.0;
    var pieces := PiecesPerHour(p);
    assert pieces > 0.0;
    assert EvaporationRate(p, meanMoisture) == evaporatedPerPiece * pieces;
    SignOfProduct(evaporatedPerPiece, pieces);
    assert evaporatedPerPiece > 0.0 <==> meanMoisture * p.wetWeight < 100.0 * InitialWater(p);
  }

  /** Heating power (kW) to bring the air stream from ambient to dryer temperature. */
  function HeatingPower(p: Params): real
  {
    var crossSection := p.numLines as real * LineWidth;
    var airFlow := p.airSpeed * crossSection;
    var airMass := airFlow * AirDensity;
    airMass * AirSpecificHeat * (p.temperature - AmbientTemperature) / 1000.0
  }

  /** Fan power (kW): cubic in the air speed, proportional to the number of lines. */
  function FanPower(p: Params): real
  {
    FanCoefficient * (p.airSpeed * p.airSpeed * p.airSpeed) * p.numLines as real
  }

  /** Energy cost per hour: total power times the energy price. */
  function EnergyCost(p: Params): real
  {
    (HeatingPower(p) + FanPower(p)) * PricePerKwh
  }

  /** The hourly energy cost is positive whenever air is blown and heated above ambient, and zero in still air. */
  lemma EnergyCostSign(p: Params)
    ensures p.temperature > AmbientTemperature && p.airSpeed > 0.0 && p.numLines >= 1 ==> EnergyCost(p) > 0.0
    ensures p.airSpeed == 0.0 ==> EnergyCost(p) == 0.0
  {
    var v, n := p.airSpeed, p.numLines as real;
    assert HeatingPower(p) == v * n * (LineWidth * AirDensity * AirSpecificHeat / 1000.0) * (p.temperature - AmbientTemperature);
    if p.temperature > AmbientTemperature && v > 0.0 && n >= 1.0 {
      assert v * n > 0.0;
      assert HeatingPower(p) > 0.0;
      assert v * v * v > 0.0;
      assert FanPower(p) > 0.0;
    }
  }

  /** With air blown, a hotter dryer costs strictly more per hour, all else equal. */
  lemma EnergyCostIncreasingInTemperature(p: Params, hotter: real)
    requires p.airSpeed > 0.0 && p.numLines >= 1 && p.temperature < hotter
    ensures EnergyCost(p) < EnergyCost(p.(temperature := hotter))
  {
    var q := p.(temperature := hotter);
    var vn := p.airSpeed * p.numLines as real;
    assert vn > 0.0;
    assert HeatingPower(p) == vn * (LineWidth * AirDensity * AirSpecificHeat / 1000.0) * (p.temperature - AmbientTemperature);
    assert HeatingPower(q) == vn * (LineWidth * AirDensity * AirSpecificHeat / 1000.0) * (hotter - AmbientTemperature);
    assert FanPower(p) == FanPower(q);
  }

  /**
   * Quality risk, first matching rule wins: High when the dryer runs above
   * 160 °C or the worst line is above 12 % moisture; otherwise Medium above
   * 140 °C or 9 %; otherwise Low.
   */
  function ClassifyRisk(temperature: real, maxMoisture: real): (r: Risk)
    ensures r == High <==> temperature > 160.0 || maxMoisture > 12.0
    ensures r == Medium <==> temperature <= 160.0 && maxMoisture <= 12.0 && (temperature > 140.0 || maxMoisture > 9.0)
    ensures r == Low <==> temperature <= 140.0 && maxMoisture <= 9.0
  {
    if temperature > 160.0 || maxMoisture > 12.0 then High
    else if temperature > 140.0 || maxMoisture > 9.0 then Medium
    else Low
  }

  /** Raising the temperature or the worst-line moisture never lowers the risk. */
  lemma RiskMonotone(t1: real, m1: real, t2: real, m2: real)
    requires t1 <= t2 && m1 <= m2
    ensures Severity(ClassifyRisk(t1, m1)) <= Severity(ClassifyRisk(t2, m2))
  {
  }

  /**
   * All indicators of one simulation table. The risk is read off the
   * temperature and the wettest line.
   */
  function CalculateKpis(p: Params, moisture: seq<real>): (r: Report)
    requires |moisture| > 0 && p.residenceTime != 0.0
    ensures r.meanMoisture == Mean(moisture)
    ensures r.evaporationRate == EvaporationRate(p, r.meanMoisture)
    ensures r.energyCost == EnergyCost(p)
    ensures r.risk == High <==> p.temperature > 160.0 || exists i :: 0 <= i < |moisture| && moisture[i] > 12.0
    ensures r.risk == Low <==> p.temperature <= 140.0 && forall i :: 0 <= i < |moisture| ==> moisture[i] <= 9.0
  {
    var mean := Mean(moisture);
    Report(mean, EnergyCost(p), EvaporationRate(p, mean), ClassifyRisk(p.temperature, Maximum(moisture)))
  }

  /**
   * When the drying law removes any water at all, the dryer evaporates water
   * at a positive rate; when it removes none, the rate is zero.
   */
  lemma DryingGivesPositiveRate(p: Params, law: Params -> real)
    requires InDomain(p) && ValidLaw(law)
    ensures law(p) > 0.0 ==> EvaporationRate(p, MeanMoisture(p, law)) > 0.0
    ensures law(p) == 0.0 ==> EvaporationRate(p, MeanMoisture(p, law)) == 0.0
  {
    var water := InitialWater(p);
    var base := EvaporatedBase(water, law(p));
    var initial := ResidualMoisture(water);
    assert initial * p.wetWeight == 100.0 * water;
    EvaporationRateSign(p, MeanMoisture(p, law));
    EvaporatedBaseZero(water, law(p));
    ProfileWithoutEvaporation(p);
    MoreEvaporationLowersMoisture(p, 0.0, base);
    if law(p) > 0.0 {
      assert MeanMoisture(p, law) < initial;
      assert MeanMoisture(p, law) * p.wetWeight < initial * p.wetWeight;
    }
  }

  /**
   * The default operating point of the dashboard (240 g pieces at 135 °C,
   * 1.5 m/s, 10 min, 50 % inlet humidity, six lines): six lines, the edge
   * lines at least as wet as the middle ones, a positive energy cost and,
   * when the law dries at all, a positive evaporation rate.
   */
  lemma DefaultScenario(law: Params -> real)
    requires ValidLaw(law)
    ensures var p := Params(240.0, 3.0, 135.0, 1.5, 10.0, 50.0, 6);
            var column := Profile(p, EvaporatedBase(InitialWater(p), law(p)));
            && |column| == 6
            && column[2] <= column[0] && column[3] <= column[0]
            && column[2] <= column[5] && column[3] <= column[5]
            && EnergyCost(p) > 0.0
            && (law(p) > 0.0 ==> EvaporationRate(p, Mean(column)) > 0.0)
  {
    var p := Params(240.0, 3.0, 135.0, 1.5, 10.0, 50.0, 6);
    assert InDomain(p);
    var base := EvaporatedBase(InitialWater(p), law(p));
    EdgeLinesWettest(p, base, 2);
    EdgeLinesWettest(p, base, 3);
    EnergyCostSign(p);
    DryingGivesPositiveRate(p, law);
  }
}
