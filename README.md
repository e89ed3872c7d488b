# Vehicle cost comparison — a Dafny model

The application compares the total cost of owning two or more vehicles over
a horizon of years. The vehicles can be combustion-engine (ICE) cars or
electric (EV) cars. For each vehicle the comparison engine works out:

- the distance driven per year;
- the yearly fuel or electricity bill;
- the yearly maintenance;
- the loan payments, from an amortised monthly payment that stops at the end of the loan term;
- a straight-line depreciation share (purchase price minus resale value, spread over the horizon).

From these it builds a year-by-year breakdown with a running total, plus the
totals, the cost per kilometre and the breakdown's running totals rounded to
two decimals. A separate set of schemas says which vehicles and comparison
requests are acceptable.

The project has five files:

- `types.dfy`: the records the engine exchanges.
- `calculations.dfy`: the engine, from `lib/calculations.ts`.
  - The loan schedule and the year loop shared by `computeICE` and `computeEV` are methods with loops.
  - Each method is proved equal to a specification function (`LoanSchedule`, `VehicleCosts`).
  - `compare` is a function over those specification functions.
  - The rounding `round2` is a parameter of `Compare`, so every result holds for any rounding function. Monotonicity is the one result that assumes a monotone rounding.
- `validators.dfy`: the schemas of `lib/validators.ts` as predicates, and the parse step that fills in the defaults.
- `admission.dfy`: what an accepted request guarantees to the engine.
- `scenarios.dfy`: the comparison in the source's test file, worked out exactly.

Money, distance and rates are exact reals. Years and loan terms are natural
numbers. A JavaScript `x || 0` is `OrZero`, and JavaScript truthiness of an
optional number is `Truthy`.

The model follows the code's guards where a looser reading is possible:

- The cost per km is absent whenever distance × horizon is not positive (`denomKm > 0` in the code). A negative distance therefore also gives no cost per km, not only a zero one.
- An EV's stated consumption is used only when it is truthy, not merely present. A stated 0 falls through to the range and battery.
- ICE fuel is 0 when the efficiency is not positive, not only when it is 0.

## Model

| member | source | states |
|---|---|---|
| Calculations.AnnualKmForVehicle | lib/calculations.ts:12-18 | A vehicle's own annual distance wins whenever it is present, even when it is 0. Otherwise twelve times its monthly distance is used. Otherwise the request's global distance is used. |
| Calculations.MonthlyLoanPayment | lib/calculations.ts:20-28 | The monthly payment is 0 when the principal is not positive, and positive whenever the principal is positive. |
| Calculations.MonthlyPaymentWithoutInterest | lib/calculations.ts:21-23 | At a rate of 0 or less, the payment is the principal split evenly over term×12 months. |
| Calculations.MonthlyPaymentWithInterest | lib/calculations.ts:24-27 | At a positive rate r = pct/1200 and q = (1+r)^(12·term), q−1 is positive (so the division is defined), and the payment is the annuity formula P·r·q/(q−1). |
| Calculations.LoanAmortizes | lib/calculations.ts:20-28 | Paying the computed monthly amount for term×12 months, at the monthly rate, leaves a balance of exactly 0, with and without interest. |
| Calculations.LoanSchedule | lib/calculations.ts:35-57 | There is one entry per horizon year. A missing or zero term gives a payment and total of 0. Otherwise the monthly payment is that of the principal net of the down payment, at the stated rate (0 when absent). Year i pays twelve monthly payments when i is within the term and 0 after it. The total is the sum of the entries. |
| Calculations.LoanTotalWithinHorizon | lib/calculations.ts:49-55 | The total paid within the horizon is twelve monthly payments times the smaller of the term and the horizon. |
| Calculations.SumSchedule | lib/calculations.ts:50-55 | Summing a schedule of `amount` for the first `term` years of `years` gives amount × min(term, years). |
| Calculations.LoanPayments | lib/calculations.ts:35-57 | The loop that pushes one payment per year returns exactly `LoanSchedule`. |
| Calculations.IceAnnualFuelLiters | lib/calculations.ts:72-73 | There is no fuel without distance or without a positive efficiency. |
| Calculations.IceAnnualFuelCost | lib/calculations.ts:74 | There is no fuel cost without a positive efficiency. |
| Calculations.IceFuelRule | lib/calculations.ts:72-74 | The litres are 0 exactly when the distance is 0 or the efficiency is not positive. Otherwise litres × efficiency = distance and cost × efficiency = distance × price. The cost is not negative for a non-negative distance and price. |
| Calculations.EvConsumptionRate | lib/calculations.ts:122-125 | A non-zero stated consumption wins. Failing that, a non-zero range and battery give a derived rate. Otherwise the rate is falsy. |
| Calculations.EvAnnualKwh | lib/calculations.ts:126 | There is no energy without distance or without a truthy rate. |
| Calculations.EvAnnualElectricityCost | lib/calculations.ts:126-127 | There is no electricity cost without distance or without a truthy rate. |
| Calculations.EvEnergyRule | lib/calculations.ts:122-127 | A derived rate × range = 100 × battery capacity. With a rate, 100 × kWh = distance × rate and 100 × cost = distance × rate × price. The cost is not negative for a non-negative distance, rate and price. |
| Calculations.YearLoop | lib/calculations.ts:79-98 | The year loop returns exactly the specified breakdown: row y carries year y, the energy and maintenance, that year's loan payment (0 past the schedule), the depreciation share and the running total of years 1..y. |
| Calculations.ComputeCosts | lib/calculations.ts:59-107 | `computeICE`/`computeEV` after their energy front end return exactly `VehicleCosts`: the breakdown, the totals and the cost per km. |
| Calculations.CumulativeClosedForm | lib/calculations.ts:80-88 | The running total after y years is y × (energy + maintenance + depreciation share) plus the loan payments of the first y years. |
| Calculations.FinalCumulative | lib/calculations.ts:80-102 | The running total of the last year equals the engine's total cost: energy, maintenance and loans over the horizon plus price net of resale. |
| Calculations.CumulativeMonotone | lib/calculations.ts:88 | With non-negative energy, maintenance, depreciation base and loan payments, the running total never decreases. |
| Calculations.DepreciationAddsUp | lib/calculations.ts:86-87 | The yearly depreciation shares add up to the purchase price net of resale. |
| Calculations.BreakdownRow | lib/calculations.ts:89-97 | Each row of the breakdown in closed form. |
| Calculations.Compare | lib/calculations.ts:159-194 | There is one result per vehicle, in input order, with that vehicle's id, name and type. |
| Calculations.VehicleCostsTotals | lib/calculations.ts:99-106 | The totals are the annual figures times the horizon, plus the loan paid within the horizon, plus price net of resale. The cost per km is absent exactly when distance × horizon is not positive, and otherwise is the total over that distance. |
| Calculations.CompareTotals | lib/calculations.ts:161-176 | Every result's totals, resale offset and cost per km are as above, for that vehicle's effective distance. |
| Calculations.CompareYearly | lib/calculations.ts:175-189 | Every row of every result carries its year, energy, maintenance, loan payment and depreciation share unrounded. Only the running total is rounded. |
| Calculations.CompareWithoutLoan | lib/calculations.ts:37-45 | A vehicle without a (truthy) loan term pays no loan, in total or in any year. |
| Calculations.CompareFinalCumulative | lib/calculations.ts:161-176 | The last year's running total is the rounded total cost. |
| Calculations.CompareDepreciationSum | lib/calculations.ts:79-98 | The depreciation column of a result adds up to the price net of resale. |
| Calculations.CompareCumulativeMonotone | lib/calculations.ts:161-176 | The displayed running totals never decrease under a monotone rounding, given a non-negative energy cost and maintenance and a resale value not above the price. |
| Validators.Utf16LengthBounds | lib/validators.ts:4-5 | The schema's string lengths count UTF-16 code units, as JavaScript's `length` does: a string has at least one unit per character and at most two. |
| Validators.Utf16LengthAstral | lib/validators.ts:5 | A string made only of characters above U+FFFF has two code units per character. |
| Validators.ParsedVehicle | lib/validators.ts:8-37 | Parsing gives every vehicle a down payment (0 when missing). It drops an EV's distance fields, which the EV schema does not declare. Nothing else changes. |
| Validators.ParseComparisonInput | lib/validators.ts:48-53 | A request is accepted exactly when it is valid: at least two vehicles, each accepted by the ICE or the EV schema (id and name lengths in UTF-16 code units), an integral horizon of 1..30 (default 5), a non-negative distance and a discount of 0..100 when present. The parsed input carries these values and the parsed vehicles. |
| Admission.ValidEvHasRate | lib/validators.ts:28-46 | An EV the schema accepts always has a positive consumption rate for the engine, stated or derived from range and battery. |
| Admission.ValidVehicleEnergyNonNegative | lib/validators.ts:13-46 | An accepted vehicle's annual energy cost is never negative for a non-negative distance. |
| Admission.DownPaymentDefaultKeepsResult | lib/validators.ts:8 | Filling in the default down payment of 0 does not change the engine's result. |
| Admission.CompareParsed | lib/validators.ts:48-53 | A parsed request gives one result per submitted vehicle. An ICE vehicle's result is that of the vehicle as submitted. An EV's energy is costed at the request's global distance. |
| Admission.ParsedCumulativeMonotone | lib/validators.ts:48-53 | For an accepted request, the running totals of every vehicle whose resale value is not above its price never decrease under a monotone rounding. |
| Scenarios.BasicIceVersusEv | lib/__tests__/calculations.test.ts:6-33 | The test's two vehicles over 5 years: the Honda costs 150,000 THB of fuel and 750,000 THB in all (12.5 THB/km), the MG4 44,550 THB of electricity and 754,450 THB in all; both totals are positive. |
| Scenarios.TwoVehiclesRequired | lib/validators.ts:49-50 | The test's two vehicles make a valid request and the horizon defaults to 5; one vehicle alone is refused. |
| Scenarios.AstralNameTooLong | lib/validators.ts:5 | A name of 41 emoji (U+1F600) has 82 UTF-16 code units and is refused, though it is only 41 characters long. |
| Scenarios.EvWithoutConsumptionBasisRejected | lib/validators.ts:38-46 | An EV with only a range, or with a zero consumption, is refused; range plus battery is accepted. |

## Left out

- `round2` and `formatCurrencyTHB` (`lib/currency.ts`) are not part of this model. The rounding is a parameter of `Compare`; only monotonicity is ever assumed of it.
- Floating point: all arithmetic is exact. Rounding error, `Infinity` and `NaN` (for example `Math.pow` overflow or a `NaN` distance) are not modelled.
- Calculations.MonthlyLoanPayment: requires a term of at least one year. The only caller, `loanPayments`, returns early when the term is falsy, so the division by a zero month count in the source is never reached.
- Loan terms are natural numbers, so a fractional or negative `loanTermYears` cannot be represented. The schema's `.int().min(1)` refuses such terms. Given a fractional term, the engine would clip the annuity to whole years: a 2.5-year term gives 30 monthly payments, but only years 1 and 2 record payments, so 24 of them are counted.
- `totalLoan = monthly * n` in `loanPayments` is computed but never used, so it is not modelled.
- `discountRatePct` is accepted and checked, but the engine never reads it.
- The zod machinery is not modelled: error messages, the parse result type and the stripping of keys that matter to no one. Only the acceptance predicates, the defaults and the dropping of an EV's distance fields are modelled.
- The React pages and components, the preset selector, local storage and the language and theme toggles are user interface. They are not part of this model.
- `computeICE` and `computeEV` are modelled as their distinct energy front ends (`IceAnnualFuelCost`, `EvAnnualElectricityCost`) feeding one shared `ComputeCosts`, because the rest of the two functions is identical line for line.
