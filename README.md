# Present value of cash flows: curve lookup and valuation engine

This project models `src/descuento.py`, which values a schedule of cash flows in two ways:

- **CURVA**: each future flow is discounted by a factor read from a market discount curve, times a continuously compounded credit-spread factor `exp(-spread * T)`.
- **YIELD**: each future flow is divided by a periodic compounding factor `(1 + y / f) ** (T * f)`.

Flows are given either by payment date or by time in years.

The model has three modules:

- `Wrappers` (`wrappers.dfy`): `Option` for parameters left as `None`, and `Result` for a value or a raised error.
- `Interpolation` (`interpolation.dfy`): the curve lookup `interpolar_factor_descuento`, as pure functions.
  - A curve is the table's rows in stored order, `seq<Pillar>`; each row is a day number and a discount factor.
  - `FirstMatch`, `LastBefore` and `FirstAfter` select the rows that the source's three DataFrame filters select.
  - `DiscountFactor` applies the rules in the source's order: exact match, nothing before, nothing after, interpolation.
  - Interpolation is linear in `ln DF` over Actual/365 year fractions (`LogLinear`).
- `Valuation` (`valuation.dfy`): the engine `calcular_valor_presente`.
  - `MetodoDescuento` is the two-case datatype `DiscountMethod`.
  - The optional parameters form a `Request`.
  - The flag `flujos_como_fechas` is the constructor of `Schedule` (`Dated` or `Timed`).
  - `Validate` makes the parameter checks in the source's order.
  - `CurveShare`, `YieldDatedShare` and `YieldTimedShare` give what one flow adds: `Skip`, `Add(x)` or `Fail(e)`.
  - `Total` is the running sum of these shares, read left to right from 0.
  - `Valuation` is the pure statement of what a call returns.
  - `PresentValue` is the imperative engine. It has the source's validation branches and calls `CurveSum`, `YieldDatedSum` or `YieldTimedSum`. Each of those is one of the source's three accumulator `for` loops, with its `continue` filter, and is proved equal to `Total` by a loop invariant.

Dates are integer day numbers, so the Actual/365 year fraction is `(day - origin) / 365` as a real. Arithmetic is on exact reals. The numeric library's `log` and `exp` and Python's `**` are fields of the datatype `Elementary`, passed in as parameters. No property of them is assumed. Lemmas that need the real functions' behaviour take it as the hypothesis `Coherent(m)`. It says that `exp` undoes `log` on positive numbers, that `exp` is positive and increasing with `exp(0) = 1`, and that any base to the power 0 is 1.

What the code does, as the model follows it:

- The lookup's docstring (`src/descuento.py:16-17`) says a date without an exact match is interpolated between the two nearest points. The code does that only strictly inside the curve. Before the earliest pillar it returns the first row's factor, and after the latest pillar the last row's factor (lines 42-50), so it extrapolates flat at both ends. The model follows the code (`FlatBeforeFirst`, `FlatAfterLast`).
- The interpolation needs no zero-width check. The row before has a date strictly below the query and the row after a date strictly above it, so `T1 < T < T2` holds on every curve, even an unsorted one or one with duplicate dates. `LogLinear` requires `t1 < t2`, and every call to it is proved to meet that.
- Rows are filtered in their stored order (lines 32, 38-39, 53-54). `DiscountFactor` does the same and needs no sortedness. Sortedness (`Ascending`) is a hypothesis only of the lemmas about neighbouring pillars and flat ends.
- Under Actual/365, a year containing 29 February is 366 days, so 2024-01-01 to 2025-01-01 is `T = 366/365`, not 1.
- An empty curve is not rejected by validation. In the code, looking it up raises an index error at line 45, when the first non-past CURVA flow is reached. The model reports `EmptyCurve` at that same point. A schedule with only past flows therefore still values to 0.
- Under YIELD, the first included flow raises a division-by-zero error in three cases (lines 201-202 and 212-213). The first is `frecuencia == 0`. The second is a compounding base `1 + yield / frecuencia` of 0 raised to a negative exponent, which Python's `**` rejects. The third is a compounding factor equal to 0. All three are modelled as `DivisionByZero` at that flow.

## Model

| member | source | states |
|---|---|---|
| `Interpolation.YearFraction` | src/descuento.py:62-65 | The Actual/365 year fraction times 365 is exactly the day difference, so it orders dates as days do and is 0 on the origin. |
| `Interpolation.FirstMatch` | src/descuento.py:31-34 | Returns the first row dated exactly on the query date, or none exists. |
| `Interpolation.LastBefore` | src/descuento.py:38-53 | Returns the last row dated strictly before the query (`iloc[-1]` of the earlier rows), or no row is earlier. |
| `Interpolation.FirstAfter` | src/descuento.py:39-54 | Returns the first row dated strictly after the query (`iloc[0]` of the later rows), or no row is later. |
| `Interpolation.LogLinear` | src/descuento.py:67-73 | The log-linear formula gives `ln df1` at `T = T1` and `ln df2` at `T = T2`. |
| `Interpolation.LookupRules` | src/descuento.py:8-77 | `DiscountFactor`, the lookup itself, applies its rules in order: the first exact match's factor; else the first row's factor when nothing is earlier; else the last row's factor when nothing is later; else `exp` of the log-linear interpolant between the last earlier row and the first later row. |
| `Interpolation.LogLinearBetween` | src/descuento.py:67-73 | Strictly inside `(T1, T2)`, the interpolated log-factor lies strictly between `ln df1` and `ln df2`, or equals both when they are equal. |
| `Interpolation.LogLinearDecreasing` | src/descuento.py:67-73 | When `ln df2 < ln df1`, the interpolated log-factor decreases strictly with time. |
| `Interpolation.LogLinearShift` | src/descuento.py:62-73 | Shifting all three year fractions by the same amount leaves the interpolant unchanged. |
| `Interpolation.ExactPivot` | src/descuento.py:31-34 | On an ascending curve, querying a pillar's date returns that pillar's factor exactly. |
| `Interpolation.FlatBeforeFirst` | src/descuento.py:42-45 | On an ascending curve, a query before the first pillar gets the first pillar's factor. |
| `Interpolation.FlatAfterLast` | src/descuento.py:47-50 | On an ascending curve, a query after the last pillar gets the last pillar's factor. |
| `Interpolation.SinglePillarIsFlat` | src/descuento.py:38-50 | A one-row curve returns its factor for every query, on both sides of its date: the two emptiness checks are made one after the other. |
| `Interpolation.BracketIsAdjacent` | src/descuento.py:38-58 | On an ascending curve with no exact match, the rows picked for interpolation are neighbours `i` and `i + 1`, with `t1 < query < t2`. |
| `Interpolation.InteriorUsesNeighbours` | src/descuento.py:52-77 | On an ascending curve, a query strictly between pillars `i` and `i + 1` gets `exp` of the log-linear interpolant of exactly those two pillars. |
| `Interpolation.OriginFree` | src/descuento.py:62-75 | The factor does not depend on the valuation date used as origin of the year fractions. |
| `Interpolation.InterpolatedFactorBetween` | src/descuento.py:67-77 | With exact `log`/`exp` and positive falling pillar factors, an interpolated factor lies strictly between the two pillar factors. |
| `Interpolation.InterpolatedFactorDecreasing` | src/descuento.py:67-77 | With exact `log`/`exp` and positive falling pillar factors, the interpolated factor falls strictly as the query date moves through the interval. |
| `Valuation.Validate` | src/descuento.py:146-189 | Gives the first failing check, in this order. CURVA: no curve, then time-shaped flows, then no valuation date. YIELD: no yield, then dated flows without a valuation date. Each error is stated in both directions. On success it returns the parameter bundle of the requested method (curve, spread and valuation date for CURVA; yield and frequency for YIELD), shaped like the flows, and time-shaped YIELD never needs a valuation date. |
| `Valuation.CurveShare` | src/descuento.py:157-175 | A dated CURVA flow is skipped exactly when it is before the valuation date. A flow on that date is still discounted. A non-past flow fails, with `EmptyCurve`, exactly when the curve is empty. |
| `Valuation.SpreadFactor` | src/descuento.py:170-172 | At year fraction 0 the credit-spread factor is `exp(0)`, whatever the spread. |
| `Valuation.SpreadFactorUnit` | src/descuento.py:170-172 | With exact `exp`, the spread factor is positive, and it is 1 on the valuation date and under a zero spread. |
| `Valuation.SpreadFactorDecreasing` | src/descuento.py:170-172 | With exact `exp` and a positive spread, the spread factor falls strictly as the time to the flow grows. |
| `Valuation.CurveShareOnPillar` | src/descuento.py:162-175 | `AdjustedFactor` on a pillar date: on an ascending curve, a non-past CURVA flow paid on pillar `k`'s date adds its amount times `c[k].factor` times the spread factor over its Actual/365 time. |
| `Valuation.ZeroSpreadCurveShare` | src/descuento.py:162-175 | `AdjustedFactor` under a zero spread (the default): with exact `exp`, a non-past CURVA flow adds its amount times the curve factor at its date. |
| `Valuation.PeriodicShare` | src/descuento.py:199-202 | An included YIELD flow fails with `DivisionByZero` exactly when the frequency is 0, the compounding base is 0 under a negative exponent, or the `Compounding` factor is 0. Otherwise its share times the compounding factor is the flow's amount. Overflow in `**` is not modelled (see Left out). |
| `Valuation.ValuationDayYieldFlow` | src/descuento.py:197-202 | `Compounding` at time 0: with exact `**` and a non-zero frequency, a dated YIELD flow on the valuation date is worth its full amount. |
| `Valuation.ZeroBaseNegativePowerFails` | src/descuento.py:212-213 | A yield of 1 with frequency -1 makes the base 0, so a timed flow at 1 year raises 0 to the power -1 and fails with `DivisionByZero`. |
| `Valuation.YieldDatedShare` | src/descuento.py:191-202 | A dated YIELD flow is skipped exactly when it is before the valuation date. Otherwise it is discounted over its Actual/365 time. |
| `Valuation.YieldTimedShare` | src/descuento.py:205-213 | A timed YIELD flow is skipped exactly when its time is `<= 0`. Otherwise it is discounted over that time. |
| `Valuation.TotalOfPrefix` | src/descuento.py:175-175 | `Total` of one more flow is one `Step` of the accumulator: an earlier error stands, otherwise the share is skipped, added or raised. |
| `Valuation.TotalFailsAtFirstFailure` | src/descuento.py:155-215 | `Total`, the accumulator, is defined exactly when no flow raises. Otherwise the call raises the error of the first flow that does. |
| `Valuation.Valuation` | src/descuento.py:146-218 | A validation error is returned before any flow is looked at, and no value is returned with it. After validation, the only possible errors are `EmptyCurve` under CURVA and `DivisionByZero` under YIELD. |
| `Valuation.PresentValue` | src/descuento.py:146-218 | The engine returns exactly `Valuation`: the first validation error, or the running sum of the included flows' contributions. |
| `Valuation.CurveSum` | src/descuento.py:155-177 | The CURVA accumulator loop, with past flows skipped by `continue`, ends with the total of the flows' shares. |
| `Valuation.YieldDatedSum` | src/descuento.py:184-202 | The YIELD loop over dated flows ends with the total of the flows' shares. |
| `Valuation.YieldTimedSum` | src/descuento.py:204-215 | The YIELD loop over timed flows ends with the total of the flows' shares. |
| `Valuation.TotalAppend` | src/descuento.py:155-177 | The total of two consecutive runs of shares is the first run's error, else the second's error, else the sum of the two totals. |
| `Valuation.TotalStopsAtError` | src/descuento.py:199-213 | Once a prefix of the flows has raised, the whole call raises the same error. |
| `Valuation.TotalIgnoresSkip` | src/descuento.py:159-160 | A skipped flow changes nothing, wherever it stands in the schedule. |
| `Valuation.AllSkippedIsZero` | src/descuento.py:155-160 | Shares that are all skipped add up to 0. |
| `Valuation.ConcatenatedSchedulesAdd` | src/descuento.py:155-215 | The value of two joined schedules of the same shape is the sum of their values, or the first error raised. |
| `Valuation.TimedYieldIgnoresValuationDate` | src/descuento.py:203-213 | Time-shaped YIELD gives the same result for any valuation date, or for none. |
| `Valuation.EmptyScheduleIsZero` | src/descuento.py:155-215 | An empty schedule is worth 0 once the parameters pass validation. |
| `Valuation.PastDatedFlowIgnored` | src/descuento.py:157-194 | Inserting a dated flow from before the valuation date anywhere in the schedule changes nothing, under either method. |
| `Valuation.NonPositiveTimedFlowIgnored` | src/descuento.py:205-208 | Inserting a timed flow with time `<= 0` anywhere in the schedule changes nothing. |
| `Valuation.PastFlowsOnlyIsZero` | src/descuento.py:157-160 | A dated schedule with only past flows is worth 0 once the parameters pass validation, under either method. |
| `Valuation.NonPositiveTimesOnlyIsZero` | src/descuento.py:205-208 | A timed schedule whose flows are all at time `<= 0` is worth 0 once the parameters pass validation. |
| `Valuation.ValuationDayAsymmetry` | src/descuento.py:193-208 | A dated YIELD flow on the valuation date is discounted with `T = 0`, while a timed flow at `T = 0` is skipped. |
| `Valuation.ValuationDayCurveFlow` | src/descuento.py:159-172 | A CURVA flow on the valuation date is included. Its contribution is the amount times the curve factor at that date times `exp(0)`, which with exact `exp` is the amount times the curve factor. |

## Left out

- `Interpolation.DiscountFactor` requires a non-empty curve. The empty curve's index error is modelled one level up, as `EmptyCurve` in `CurveShare` and `CurveSum`, at the point where the source raises it.
- Floating point: all arithmetic is on exact reals, and IEEE rounding, infinities and NaN are not modelled. The order of summation is kept: the accumulator is summed left to right.
- `log`, `exp` and `**` are parameters, not computed, so no concrete numeric value is derived. Python's `**` gives a complex number for a negative base with a fractional exponent; that case is not modelled.
- `Valuation.PeriodicShare`: an `OverflowError` raised by `**` when the compounding factor is too large for a float is not modelled. On exact reals no overflow exists, and that flow is discounted.
- pandas and `datetime` mechanics: the DataFrame is its rows in stored order, and `Timestamp` and `date` are integer day numbers.
- The "unrecognized method" branch (`src/descuento.py:217-218`) cannot be reached, because `DiscountMethod` is a closed two-case datatype.
- The shape flag and the shape of the flows are one thing in the model, the `Schedule` constructor. A flag that contradicts the data (a Python `TypeError` when a float is compared with a date) is not modelled.
- Default argument values (YIELD, spread 0, frequency 2, dated flows): every `Request` field is given explicitly.
- `Interpolation.InterpolatedFactorBetween` and `Interpolation.InterpolatedFactorDecreasing` assume exact `log`/`exp` (`Coherent`). They are stated within one pair of neighbouring pillars, not across the whole curve.
- The convergence of CURVA and YIELD for a flat curve as the frequency grows is a statement about limits and floating-point tolerance. It is not modelled.
- The docstring usage examples depend on curve data that is not part of this model.
