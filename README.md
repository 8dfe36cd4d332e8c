# Industrial dryer simulator: drying model, KPIs and sensitivity sweep

This project is a Dafny model of the computational core of an industrial
drying simulator for moulded-pulp pieces (`app_industrial.py`). The core has
three parts:

- **Drying model** (`drying.dfy`, module `Drying`). From one set of process
  parameters it computes the residual moisture of the pieces on each line of a
  multi-line dryer. The parameters are wet weight, thickness, temperature, air
  speed, residence time, inlet-air humidity and number of lines. A piece holds
  50 g of dry mass. A fully exposed line removes a base amount of water. Each
  line removes that amount times a uniformity factor:
  - 0.85 on the two outermost lines;
  - otherwise 0.95 on the lines next to them;
  - otherwise 1.0.

  Residual moisture is the wet-basis percentage `100·water/(water+50)`. It is
  floored at 0 after the ratio is taken. `ResidualMoisture` states this
  percentage by its defining equation; `MoisturePercent` computes it by the
  division and is proved equal to it. `Simulate` is a loop that appends one
  value per line. It is proved equal to the column function `Profile`.
- **KPI aggregator** (`kpis.dfy`, module `Kpis`) computes four indicators:
  - mean moisture;
  - evaporation rate, where pieces per hour are `60/t·n`;
  - hourly energy cost, which is heating power plus a cubic fan model, priced at 0.15 per kWh;
  - quality risk Low/Medium/High, decided by thresholds on temperature and on the wettest line, first match wins.
- **Sensitivity sweep** (`sensitivity.dfy`, module `Sensitivity`) takes 20
  evenly spaced values from `lo` to `hi` for one variable: temperature, air
  speed, residence time or wet weight. For each value it copies the
  parameters, overrides that variable, reruns the simulation and records the
  mean moisture.
- Column reductions (mean, maximum) are in `series.dfy`, module `Series`.

The base evaporation is
`initial water · (1 - exp(-0.05·t·(T/90)^1.5·(v/1.5)^0.8·(1 - RH/100)))`.
Its exponential and fractional powers are abstracted. The model takes a
*drying law* `law: Params -> real` that stands for the fraction
`1 - exp(-…)`. `ValidLaw` requires that the law lies in [0, 1) on the
parameter domain, which is what `1 - exp(-x)` does for `x ≥ 0`. The rest of
the computation is modelled exactly over the reals.

The code does no input validation. The parameter domain is therefore stated as
preconditions (`InDomain`), not as error results:
- wet weight > 50 g;
- temperature ≥ 0 and air speed ≥ 0, because a fractional power of a negative number has no real value;
- residence time > 0;
- inlet humidity ≤ 100 %;
- at least one line.

## Model

| member | source | states |
|---|---|---|
| `Drying.EvaporatedBase` | app_industrial.py:60-72 | The base water removed per piece is never negative and always less than the water the piece held. |
| `Drying.EvaporatedBaseZero` | app_industrial.py:72 | The base evaporation is zero exactly when the drying fraction is zero. |
| `Drying.UniformityFactor` | app_industrial.py:79-85 | The factor lies in [0.85, 1.0]. It is 0.85 exactly on lines 0 and n-1, so the outermost rule wins over the second-from-edge one. It is 0.95 exactly on lines 1 and n-2 that are not also outermost. It is 1.0 exactly on lines that are not 0, 1, n-2 or n-1. |
| `Drying.UniformityFactorSymmetric` | app_industrial.py:80-85 | Line i and line n-1-i get the same factor. |
| `Drying.MoisturePercent` | app_industrial.py:91-95 | The clamped percentage lies in [0, 100). With water left, it is the wet-basis share: m·(water+50) = 100·water. A non-positive final water reads as 0, because the percentage is clamped and the mass is not. It equals the specification value `ResidualMoisture`. |
| `Drying.ResidualMoistureIncreasing` | app_industrial.py:92-93 | More water left on a piece means strictly more residual moisture. |
| `Drying.Profile` | app_industrial.py:74-99 | The moisture column has exactly `num_lineas` entries. Entry i lies in [0, 100) and is the wet-basis percentage of the water left on line i, which is the initial water minus the base times line i's factor and is never negative. |
| `Drying.ProfileWithoutEvaporation` | app_industrial.py:87-95 | With no evaporation, every line and the mean keep the initial wet-basis moisture. |
| `Drying.Simulate` | app_industrial.py:45-101 | The loop's output equals `Profile`: one value per line, in order 0..n-1, with the base computed once. |
| `Drying.ProfileSymmetric` | app_industrial.py:78-95 | Line i and line n-1-i always end with the same moisture. |
| `Drying.FactorOrdersMoisture` | app_industrial.py:79-95 | A line with a smaller uniformity factor ends at least as wet. It ends strictly wetter when any water is removed. |
| `Drying.EdgeLinesWettest` | app_industrial.py:79-95 | Lines 0 and n-1 are at least as wet as every line, and strictly wetter than every non-edge line when water is removed. |
| `Drying.InteriorLinesDriest` | app_industrial.py:79-95 | An interior line is no wetter than any line, and strictly drier than lines 0, 1, n-2 and n-1 when water is removed. |
| `Drying.LineDriesWithEvaporation` | app_industrial.py:87-95 | Removing more base water never raises one line's moisture, and removing strictly more lowers it strictly. |
| `Drying.MoreEvaporationLowersMoisture` | app_industrial.py:72-95 | More base evaporation never raises any line's moisture or the mean. Strictly more evaporation strictly lowers both. |
| `Series.Maximum` | app_industrial.py:132-134 | The column maximum is one of the values and no value exceeds it. |
| `Series.MeanBounds` | app_industrial.py:138 | The mean moisture lies between any lower and any upper bound of the line values. |
| `Kpis.PiecesPerHour` | app_industrial.py:114 | Pieces per hour times the residence time equals 60·n. |
| `Kpis.EvaporationRateSign` | app_industrial.py:110-115 | The evaporation rate is positive exactly when mean·wet weight < 100·initial water. It is zero exactly when the two are equal. |
| `Kpis.DryingGivesPositiveRate` | app_industrial.py:110-115 | If the drying law removes any water, the evaporation rate of the simulated column is positive. If it removes none, the rate is zero. |
| `Kpis.EnergyCostSign` | app_industrial.py:117-128 | The energy cost is positive when T > 25 °C, air speed > 0 and n ≥ 1. It is zero in still air. |
| `Kpis.EnergyCostIncreasingInTemperature` | app_industrial.py:122-128 | When air is blown, a hotter dryer costs strictly more per hour, all else equal. |
| `Kpis.ClassifyRisk` | app_industrial.py:130-135 | High iff T > 160 or the worst line > 12. Medium iff neither holds and (T > 140 or the worst line > 9). Low iff T ≤ 140 and the worst line ≤ 9. |
| `Kpis.RiskMonotone` | app_industrial.py:131-135 | Raising the temperature or the worst-line moisture never lowers the risk level. |
| `Kpis.CalculateKpis` | app_industrial.py:103-142 | The report's risk is High iff T > 160 or some line is above 12 %. It is Low iff T ≤ 140 and every line is at most 9 %. The mean and rate are those of the column; the cost is that of the parameters. |
| `Kpis.DefaultScenario` | app_industrial.py:153-163 | At the dashboard's default settings there are 6 lines. Lines 0 and 5 are at least as wet as lines 2 and 3. The energy cost is positive, and so is the evaporation rate whenever the law dries. |
| `Sensitivity.With` | app_industrial.py:237-238 | The copied parameters have the swept variable set to the sample. Every other parameter equals the base's. |
| `Sensitivity.SweepValuesEvenlySpaced` | app_industrial.py:229-233 | There are 20 samples. They start at lo and end at hi. Each lies between the bounds. Samples are spaced by (hi-lo)/19 and ascend strictly when lo < hi. |
| `Sensitivity.Sweep` | app_industrial.py:229-240 | The loop returns the 20 samples and, for each, the mean moisture of a simulation where only the selected variable differs from the base. Every sampled parameter set is in the domain. |
| `Sensitivity.SampleResponseOrdered` | app_industrial.py:235-240 | Of two samples of an upward temperature, air-speed or residence-time sweep, the later one has no more mean moisture, given a law that dries no less as the variable grows. |
| `Sensitivity.SweepResponseNonIncreasing` | app_industrial.py:235-240 | The response curve of such a sweep is non-increasing across all 20 samples. |

The functions `Kpis.EvaporationRate`, `Kpis.HeatingPower`, `Kpis.FanPower`,
`Kpis.EnergyCost` and `Series.Mean` are the definitions of
app_industrial.py:110-128 and :138. The `Kpis.EvaporationRateSign`,
`Kpis.EnergyCostSign`, `Kpis.EnergyCostIncreasingInTemperature` and
`Series.MeanBounds` rows state their properties.

## Left out

- Streamlit UI: page configuration, CSS, sidebar sliders, tabs, metrics and info boxes. This is presentation.
- Plotly heatmap and line charts, and the DataFrame display. This is rendering by foreign libraries.
- The session-state workaround that reads slider bounds by inspecting widget labels. `Sweep` takes the bounds as explicit arguments.
- `exp` and the fractional powers `**1.5` and `**0.8` in the base evaporation. These are transcendental floating-point numerics. They are replaced by the abstract drying law, which carries only its range [0, 1).
- IEEE floating point: rounding, NaN and infinities. The model works over mathematical reals.
- Inputs outside the domain. The code does no validation, so a negative temperature gives complex powers, and a zero residence time raises a division error. The model states the domain as preconditions instead of modelling these failures.
- `Kpis.CalculateKpis`: requires a non-empty moisture column. On an empty column pandas gives NaN for the mean and the maximum, which is not modelled. The simulation never produces an empty column for n ≥ 1.
- The line-name column `Línea i+1` of the results table. It is a display label; the model indexes lines by position.
- The thickness parameter. It is kept as a field of `Params` and never read, as in the code.
- The evaporation rate's final-water estimate applies the mean moisture to the original wet weight rather than to the final mass. This approximation is kept as written.
- `Sensitivity.SweepResponseNonIncreasing`: monotonicity of the response is proved only under the hypothesis `DriesMoreAsGrows` on the abstract law. The wet-weight sweep is not covered, because it also changes the initial water.
