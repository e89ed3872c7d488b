/**
 * The total-cost-of-ownership engine (lib/calculations.ts): effective annual
 * distance, loan amortization, the two energy-cost front ends, the shared
 * year-by-year breakdown with its totals, and `compare`.
 *
 * The two places where the source updates variables step by step (the loan
 * schedule and the year loop) are methods with loops, each proved equal to a
 * specification function; `compare` is a function over those specification
 * functions, and the lemmas state what the results mean.
 */
module Calculations {
  import opened Types

  function Min(a: nat, b: nat): nat {
    if a <= b then a else b
  }

  /** `Math.pow(x, n)` for a natural exponent. */
  function Pow(x: real, n: nat): real {
    if n == 0 then 1.0 else x * Pow(x, n - 1)
  }

  lemma {:induction false} PowAboveOne(x: real, n: nat)
    requires x > 1.0 && n >= 1
    ensures Pow(x, n) > 1.0
  {
    if n > 1 {
      PowAboveOne(x, n - 1);
      assert x * Pow(x, n - 1) > 1.0 * Pow(x, n - 1);
    }
  }

  /** Left fold with `+` from 0, as `reduce((a, b) => a + b, 0)` does. */
  function Sum(s: seq<real>): real {
    if |s| == 0 then 0.0 else Sum(s[..|s| - 1]) + s[|s| - 1]
  }

  // ---------------------------------------------------------------------
  // Effective annual distance
  // ---------------------------------------------------------------------

  /**
   * A vehicle's own annual distance wins, even when it is 0; then twelve
   * times its monthly distance; then the request-wide value.
   */
  function AnnualKmForVehicle(v: Vehicle, globalAnnualKm: real): (km: real)
    ensures v.annualKm.Some? ==> km == v.annualKm.value
    ensures v.annualKm.None? && v.monthlyKm.Some? ==> km == 12.0 * v.monthlyKm.value
    ensures v.annualKm.None? && v.monthlyKm.None? ==> km == globalAnnualKm
  {
    if v.annualKm.Some? then v.annualKm.value
    else if v.monthlyKm.Some? then v.monthlyKm.value * 12.0
    else globalAnnualKm
  }

  // ---------------------------------------------------------------------
  // Loan amortization
  // ---------------------------------------------------------------------

  /** The monthly interest rate the payment formula uses for a positive annual percentage. */
  function MonthlyRate(annualRatePct: real): real {
    annualRatePct / 100.0 / 12.0
  }

  /**
   * Fixed monthly payment of a loan over `termYears * 12` months. Callers only
   * ask for a loan with a term, so the month count is never 0.
   */
  function MonthlyLoanPayment(principal: real, annualRatePct: real, termYears: nat): (payment: real)
    requires termYears >= 1
    ensures principal <= 0.0 ==> payment == 0.0
    ensures principal > 0.0 ==> payment > 0.0
  {
    if principal <= 0.0 then 0.0
    else
      var n := termYears * 12;
      if annualRatePct <= 0.0 then principal / n as real
      else
        var r := MonthlyRate(annualRatePct);
        var numerator := principal * r * Pow(1.0 + r, n);
        var denom := Pow(1.0 + r, n) - 1.0;
        PowAboveOne(1.0 + r, n);
        assert numerator > 0.0 by {
          assert principal * r > 0.0;
        }
        numerator / denom
  }

  /** Without interest the payment is exactly the principal spread evenly over the months. */
  lemma MonthlyPaymentWithoutInterest(principal: real, annualRatePct: real, termYears: nat)
    requires termYears >= 1 && principal > 0.0 && annualRatePct <= 0.0
    ensures MonthlyLoanPayment(principal, annualRatePct, termYears) == principal / (termYears * 12) as real
  {
  }

  /**
   * With interest the payment is the annuity formula, whose denominator is
   * positive.
   */
  lemma MonthlyPaymentWithInterest(principal: real, annualRatePct: real, termYears: nat)
    requires termYears >= 1 && principal > 0.0 && annualRatePct > 0.0
    ensures var r := annualRatePct / 1200.0;
            var q := Pow(1.0 + r, termYears * 12);
            && q - 1.0 > 0.0
            && MonthlyLoanPayment(principal, annualRatePct, termYears) == principal * r * q / (q - 1.0)
  {
    PowAboveOne(1.0 + annualRatePct / 1200.0, termYears * 12);
  }

  /** Outstanding balance after `months` monthly payments at monthly rate `r`. */
  function Balance(principal: real, r: real, payment: real, months: nat): real {
    if months == 0 then principal
    else Balance(principal, r, payment, months - 1) * (1.0 + r) - payment
  }

  /** One month of the closed form: pure algebra on the previous month's figures. */
  lemma BalanceStep(principal: real, r: real, payment: real, b: real, q: real, b': real, q': real)
    requires b * r == principal * r * q - payment * (q - 1.0)
    requires b' == b * (1.0 + r) - payment && q' == (1.0 + r) * q
    ensures b' * r == principal * r * q' - payment * (q' - 1.0)
  {
    var br := b * r;
    assert b' * r == br + br * r - payment * r;
    assert br + br * r == (1.0 + r) * br;
    assert (1.0 + r) * br == (1.0 + r) * (principal * r * q) - (1.0 + r) * (payment * (q - 1.0));
    assert (1.0 + r) * (payment * (q - 1.0)) + payment * r == payment * (q' - 1.0);
  }

  lemma {:induction false} BalanceTimesRate(principal: real, r: real, payment: real, k: nat)
    ensures Balance(principal, r, payment, k) * r
         == principal * r * Pow(1.0 + r, k) - payment * (Pow(1.0 + r, k) - 1.0)
  {
    if k > 0 {
      BalanceTimesRate(principal, r, payment, k - 1);
      BalanceStep(principal, r, payment, Balance(principal, r, payment, k - 1), Pow(1.0 + r, k - 1),
                  Balance(principal, r, payment, k), Pow(1.0 + r, k));
    }
  }

  lemma {:induction false} BalanceWithoutInterest(principal: real, payment: real, k: nat)
    ensures Balance(principal, 0.0, payment, k) == principal - k as real * payment
  {
    if k > 0 {
      BalanceWithoutInterest(principal, payment, k - 1);
    }
  }

  /**
   * The payment retires the loan: after `termYears * 12` payments at the
   * monthly rate the formula uses (none for a non-positive annual rate) the
   * outstanding balance is exactly 0.
   */
  lemma LoanAmortizes(principal: real, annualRatePct: real, termYears: nat)
    requires principal > 0.0 && termYears >= 1
    ensures Balance(principal, if annualRatePct <= 0.0 then 0.0 else MonthlyRate(annualRatePct),
                    MonthlyLoanPayment(principal, annualRatePct, termYears), termYears * 12) == 0.0
  {
    var n := termYears * 12;
    var p := MonthlyLoanPayment(principal, annualRatePct, termYears);
    if annualRatePct <= 0.0 {
      BalanceWithoutInterest(principal, p, n);
    } else {
      var r := MonthlyRate(annualRatePct);
      var q := Pow(1.0 + r, n);
      PowAboveOne(1.0 + r, n);
      assert p == principal * r * q / (q - 1.0);
      assert p * (q - 1.0) == principal * r * q;
      BalanceTimesRate(principal, r, p, n);
      assert Balance(principal, r, p, n) * r == 0.0;
    }
  }

  datatype LoanResult = LoanResult(
    monthlyPayment: real,
    totalPaidWithinHorizon: real,
    yearlyPayments: seq<real>)

  function Principal(v: Vehicle): real {
    v.purchasePrice - OrZero(v.downPayment)
  }

  /** `loanTermYears || 0` */
  function TermYears(v: Vehicle): nat {
    if v.loanTermYears.Some? then v.loanTermYears.value else 0
  }

  /** Year y (1-based) pays twelve monthly payments while y is within the term, else 0. */
  function Schedule(yearlyAmount: real, termYears: nat, years: nat): (s: seq<real>) {
    seq(years, i requires 0 <= i < years => if i + 1 <= termYears then yearlyAmount else 0.0)
  }

  lemma {:induction false} SumSchedule(yearlyAmount: real, termYears: nat, years: nat)
    ensures Sum(Schedule(yearlyAmount, termYears, years)) == yearlyAmount * Min(termYears, years) as real
  {
    if years > 0 {
      var s := Schedule(yearlyAmount, termYears, years);
      assert s[..years - 1] == Schedule(yearlyAmount, termYears, years - 1);
      SumSchedule(yearlyAmount, termYears, years - 1);
    }
  }

  lemma {:induction false} SumConstant(x: real, n: nat)
    ensures Sum(seq(n, i => x)) == n as real * x
  {
    if n > 0 {
      assert seq(n, i => x)[..n - 1] == seq(n - 1, i => x);
      SumConstant(x, n - 1);
    }
  }

  /**
   * What `loanPayments` returns: no term means no payments; otherwise one
   * entry per horizon year, twelve monthly payments while the year is within
   * the term, and their sum, so that payments beyond the horizon never count.
   */
  function LoanSchedule(v: Vehicle, horizonYears: nat): (loan: LoanResult)
    ensures |loan.yearlyPayments| == horizonYears
    ensures TermYears(v) == 0 ==> loan.monthlyPayment == 0.0 && loan.totalPaidWithinHorizon == 0.0
    ensures TermYears(v) >= 1 ==> loan.monthlyPayment
                                  == MonthlyLoanPayment(Principal(v), OrZero(v.interestRateAnnualPct), TermYears(v))
    ensures forall i :: 0 <= i < horizonYears ==>
              loan.yearlyPayments[i] == if i < TermYears(v) then loan.monthlyPayment * 12.0 else 0.0
    ensures loan.totalPaidWithinHorizon == Sum(loan.yearlyPayments)
  {
    var principal := Principal(v);
    var termYears := TermYears(v);
    var rate := OrZero(v.interestRateAnnualPct);
    if termYears == 0 then
      SumConstant(0.0, horizonYears);
      LoanResult(0.0, 0.0, seq(horizonYears, i => 0.0))
    else
      var monthly := MonthlyLoanPayment(principal, rate, termYears);
      var yearlyPayments := Schedule(monthly * 12.0, termYears, horizonYears);
      LoanResult(monthly, Sum(yearlyPayments), yearlyPayments)
  }

  /**
   * The total paid within the horizon is twelve monthly payments for each
   * year that is both within the term and within the horizon.
   */
  lemma LoanTotalWithinHorizon(v: Vehicle, horizonYears: nat)
    ensures LoanSchedule(v, horizonYears).totalPaidWithinHorizon
         == LoanSchedule(v, horizonYears).monthlyPayment * 12.0 * Min(TermYears(v), horizonYears) as real
  {
    var loan := LoanSchedule(v, horizonYears);
    if TermYears(v) >= 1 {
      assert loan.yearlyPayments == Schedule(loan.monthlyPayment * 12.0, TermYears(v), horizonYears);
      SumSchedule(loan.monthlyPayment * 12.0, TermYears(v), horizonYears);
    }
  }

  /** `loanPayments`: builds the yearly schedule one horizon year at a time. */
  method LoanPayments(v: Vehicle, horizonYears: nat) returns (loan: LoanResult)
    ensures loan == LoanSchedule(v, horizonYears)
  {
    var principal := v.purchasePrice - OrZero(v.downPayment);
    var termYears := TermYears(v);
    var rate := OrZero(v.interestRateAnnualPct);
    if termYears == 0 {
      return LoanResult(0.0, 0.0, seq(horizonYears, i => 0.0));
    }
    var monthly := MonthlyLoanPayment(principal, rate, termYears);
    var yearlyPayments: seq<real> := [];
    var y := 1;
    while y <= horizonYears
      invariant 1 <= y <= horizonYears + 1
      invariant yearlyPayments == Schedule(monthly * 12.0, termYears, y - 1)
    {
      if y <= termYears {
        yearlyPayments := yearlyPayments + [monthly * 12.0];
      } else {
        yearlyPayments := yearlyPayments + [0.0];
      }
      y := y + 1;
    }
    var totalWithinHorizon := Sum(yearlyPayments);
    loan := LoanResult(monthly, totalWithinHorizon, yearlyPayments);
  }

  // ---------------------------------------------------------------------
  // Energy cost front ends
  // ---------------------------------------------------------------------

  /** Litres of fuel a year: none without distance or without a positive efficiency. */
  function IceAnnualFuelLiters(p: Powertrain, annualKm: real): (liters: real)
    requires p.Combustion?
    ensures annualKm == 0.0 || p.fuelEfficiencyKmPerLiter <= 0.0 ==> liters == 0.0
  {
    if annualKm != 0.0 && p.fuelEfficiencyKmPerLiter > 0.0 then annualKm / p.fuelEfficiencyKmPerLiter else 0.0
  }

  /** Annual fuel cost of an ICE vehicle: its litres at its price per litre. */
  function IceAnnualFuelCost(p: Powertrain, annualKm: real): (cost: real)
    requires p.Combustion?
    ensures p.fuelEfficiencyKmPerLiter <= 0.0 ==> cost == 0.0
  {
    IceAnnualFuelLiters(p, annualKm) * p.fuelPricePerLiter
  }

  /**
   * With distance and a positive efficiency, the litres are the distance
   * over the efficiency (and only then non-zero), so the cost is distance
   * times price over efficiency; it is never negative for a non-negative
   * distance and price.
   */
  lemma IceFuelRule(p: Powertrain, annualKm: real)
    requires p.Combustion?
    ensures IceAnnualFuelLiters(p, annualKm) == 0.0 <==> annualKm == 0.0 || p.fuelEfficiencyKmPerLiter <= 0.0
    ensures IceAnnualFuelLiters(p, annualKm) != 0.0
            ==> IceAnnualFuelLiters(p, annualKm) * p.fuelEfficiencyKmPerLiter == annualKm
    ensures p.fuelEfficiencyKmPerLiter > 0.0
            ==> IceAnnualFuelCost(p, annualKm) * p.fuelEfficiencyKmPerLiter == annualKm * p.fuelPricePerLiter
    ensures annualKm >= 0.0 && p.fuelPricePerLiter >= 0.0 ==> IceAnnualFuelCost(p, annualKm) >= 0.0
  {
    var liters := IceAnnualFuelLiters(p, annualKm);
    if annualKm != 0.0 && p.fuelEfficiencyKmPerLiter > 0.0 {
      assert liters * p.fuelEfficiencyKmPerLiter == annualKm;
      assert liters * p.fuelPricePerLiter * p.fuelEfficiencyKmPerLiter
          == liters * p.fuelEfficiencyKmPerLiter * p.fuelPricePerLiter;
    }
    if annualKm >= 0.0 && p.fuelPricePerLiter >= 0.0 {
      assert liters >= 0.0;
    }
  }

  /**
   * kWh per 100 km: the stated consumption when it is non-zero, else the
   * energy of a full battery spread over the range when both are non-zero,
   * else the stated value as it stands.
   */
  function EvConsumptionRate(p: Powertrain): (rate: Option<real>)
    requires p.Electric?
    ensures Truthy(p.energyConsumptionKwhPer100km) ==> rate == p.energyConsumptionKwhPer100km
    ensures !Truthy(p.energyConsumptionKwhPer100km) && Truthy(p.rangeKmPerCharge) && Truthy(p.batteryCapacityKwh)
            ==> rate.Some?
    ensures !Truthy(p.energyConsumptionKwhPer100km) && !(Truthy(p.rangeKmPerCharge) && Truthy(p.batteryCapacityKwh))
            ==> !Truthy(rate)
  {
    var energyConsumption := p.energyConsumptionKwhPer100km;
    if !Truthy(energyConsumption) && Truthy(p.rangeKmPerCharge) && Truthy(p.batteryCapacityKwh) then
      Some((p.batteryCapacityKwh.value / p.rangeKmPerCharge.value) * 100.0)
    else energyConsumption
  }

  /** kWh a year: none without distance or without a consumption rate. */
  function EvAnnualKwh(p: Powertrain, annualKm: real): (kwh: real)
    requires p.Electric?
    ensures annualKm == 0.0 || !Truthy(EvConsumptionRate(p)) ==> kwh == 0.0
  {
    var energyConsumption := EvConsumptionRate(p);
    if annualKm != 0.0 && Truthy(energyConsumption) then (annualKm / 100.0) * energyConsumption.value else 0.0
  }

  /** Annual electricity cost of an EV: its kWh at its price per kWh. */
  function EvAnnualElectricityCost(p: Powertrain, annualKm: real): (cost: real)
    requires p.Electric?
    ensures annualKm == 0.0 || !Truthy(EvConsumptionRate(p)) ==> cost == 0.0
  {
    EvAnnualKwh(p, annualKm) * p.electricityPricePerKwh
  }

  /**
   * A derived consumption rate is the energy of a full battery per 100 km of
   * range; with a rate, the kWh are distance over 100 times the rate and the
   * cost is those kWh at the price; the cost is never negative for a
   * non-negative distance, rate and price.
   */
  lemma EvEnergyRule(p: Powertrain, annualKm: real)
    requires p.Electric?
    ensures !Truthy(p.energyConsumptionKwhPer100km) && Truthy(p.rangeKmPerCharge) && Truthy(p.batteryCapacityKwh)
            ==> EvConsumptionRate(p).value * p.rangeKmPerCharge.value == 100.0 * p.batteryCapacityKwh.value
    ensures Truthy(EvConsumptionRate(p))
            ==> 100.0 * EvAnnualKwh(p, annualKm) == annualKm * EvConsumptionRate(p).value
    ensures Truthy(EvConsumptionRate(p))
            ==> 100.0 * EvAnnualElectricityCost(p, annualKm)
                == annualKm * EvConsumptionRate(p).value * p.electricityPricePerKwh
    ensures annualKm >= 0.0 && p.electricityPricePerKwh >= 0.0
            && (EvConsumptionRate(p).Some? ==> EvConsumptionRate(p).value >= 0.0)
            ==> EvAnnualElectricityCost(p, annualKm) >= 0.0
  {
    var rate := EvConsumptionRate(p);
    var kwh := EvAnnualKwh(p, annualKm);
    if Truthy(rate) {
      assert 100.0 * kwh == annualKm * rate.value;
      assert 100.0 * (kwh * p.electricityPricePerKwh) == (100.0 * kwh) * p.electricityPricePerKwh;
    }
    if annualKm >= 0.0 && (rate.Some? ==> rate.value >= 0.0) {
      assert kwh >= 0.0;
    }
  }

  /** The type-specific front end: fuel for an ICE vehicle, electricity for an EV. */
  function AnnualEnergyCost(v: Vehicle, annualKm: real): real {
    match v.powertrain
    case Combustion(_, _, _) => IceAnnualFuelCost(v.powertrain, annualKm)
    case Electric(_, _, _, _, _) => EvAnnualElectricityCost(v.powertrain, annualKm)
  }

  // ---------------------------------------------------------------------
  // Year-by-year breakdown and totals (shared by both vehicle kinds)
  // ---------------------------------------------------------------------

  /** What every year of one vehicle's breakdown is computed from. */
  datatype CostBasis = CostBasis(
    energy: real,
    maintenance: real,
    loans: seq<real>,
    depreciationBase: real,
    horizon: nat)

  /** `loan.yearlyPayments[y - 1] || 0` */
  function LoanAt(loans: seq<real>, i: nat): real {
    if i < |loans| then loans[i] else 0.0
  }

  function DepreciationPerYear(c: CostBasis): real
    requires c.horizon >= 1
  {
    c.depreciationBase / c.horizon as real
  }

  /** Cost charged to year y (1-based). */
  function YearCost(c: CostBasis, y: nat): real
    requires 1 <= y <= c.horizon
  {
    c.energy + c.maintenance + LoanAt(c.loans, y - 1) + DepreciationPerYear(c)
  }

  /** Running total of the yearly costs of years 1..y. */
  function Cumulative(c: CostBasis, y: nat): real
    requires y <= c.horizon
  {
    if y == 0 then 0.0 else Cumulative(c, y - 1) + YearCost(c, y)
  }

  function Row(c: CostBasis, y: nat): YearlyBreakdownComponent
    requires 1 <= y <= c.horizon
  {
    YearlyBreakdownComponent(y, c.energy, c.maintenance, LoanAt(c.loans, y - 1),
                             DepreciationPerYear(c), Cumulative(c, y))
  }

  function Breakdown(c: CostBasis): seq<YearlyBreakdownComponent> {
    seq(c.horizon, i requires 0 <= i < c.horizon => Row(c, i + 1))
  }

  /** The figures `computeICE` and `computeEV` return. */
  datatype Computation = Computation(
    yearly: seq<YearlyBreakdownComponent>,
    totalFuel: real,
    totalMaint: real,
    resaleOffset: real,
    totalLoan: real,
    totalCost: real,
    costPerKm: Option<real>)

  function BasisOf(v: Vehicle, annualEnergyCost: real, horizon: nat): CostBasis {
    CostBasis(annualEnergyCost, OrZero(v.annualMaintenanceTHB), LoanSchedule(v, horizon).yearlyPayments,
              v.purchasePrice - OrZero(v.resaleValue), horizon)
  }

  /** Specification of the shared part of `computeICE` / `computeEV`. */
  function VehicleCosts(v: Vehicle, annualEnergyCost: real, annualKm: real, horizon: nat): Computation {
    var maint := OrZero(v.annualMaintenanceTHB);
    var resaleOffset := OrZero(v.resaleValue);
    var totalFuel := annualEnergyCost * horizon as real;
    var totalMaint := maint * horizon as real;
    var totalLoan := LoanSchedule(v, horizon).totalPaidWithinHorizon;
    var totalCost := totalFuel + totalMaint + totalLoan + (v.purchasePrice - resaleOffset);
    var denomKm := annualKm * horizon as real;
    Computation(Breakdown(BasisOf(v, annualEnergyCost, horizon)), totalFuel, totalMaint, resaleOffset,
                totalLoan, totalCost, if denomKm > 0.0 then Some(totalCost / denomKm) else None)
  }

  /**
   * The year loop of `computeICE` / `computeEV`: one row per horizon year,
   * the same energy, maintenance and depreciation share every year, that
   * year's loan payment, and the running total carried from row to row.
   */
  method YearLoop(energy: real, maintenance: real, loans: seq<real>, depreciationBase: real, horizon: nat)
    returns (yearly: seq<YearlyBreakdownComponent>)
    ensures yearly == Breakdown(CostBasis(energy, maintenance, loans, depreciationBase, horizon))
  {
    ghost var c := CostBasis(energy, maintenance, loans, depreciationBase, horizon);
    yearly := [];
    var cumulative := 0.0;
    var y := 1;
    while y <= horizon
      invariant 1 <= y <= horizon + 1
      invariant |yearly| == y - 1
      invariant forall i :: 0 <= i < y - 1 ==> yearly[i] == Row(c, i + 1)
      invariant cumulative == Cumulative(c, y - 1)
    {
      var energyY := energy;
      var maintY := maintenance;
      var loanY := LoanAt(loans, y - 1);
      var depreciationY := depreciationBase / horizon as real;
      cumulative := cumulative + (energyY + maintY + loanY + depreciationY);
      yearly := yearly + [YearlyBreakdownComponent(y, energyY, maintY, loanY, depreciationY, cumulative)];
      y := y + 1;
    }
  }

  /**
   * The body shared by `computeICE` and `computeEV` once the annual energy
   * cost is known: the loan schedule, the year loop, and the totals.
   */
  method ComputeCosts(v: Vehicle, annualEnergyCost: real, annualKm: real, horizon: nat) returns (r: Computation)
    ensures r == VehicleCosts(v, annualEnergyCost, annualKm, horizon)
  {
    var maint := OrZero(v.annualMaintenanceTHB);
    var loan := LoanPayments(v, horizon);
    var resaleOffset := OrZero(v.resaleValue);
    var yearly := YearLoop(annualEnergyCost, maint, loan.yearlyPayments, v.purchasePrice - resaleOffset, horizon);
    var totalFuel := annualEnergyCost * horizon as real;
    var totalMaint := maint * horizon as real;
    var totalLoan := loan.totalPaidWithinHorizon;
    var totalCost := totalFuel + totalMaint + totalLoan + (v.purchasePrice - resaleOffset);
    var denomKm := annualKm * horizon as real;
    var costPerKm := if denomKm > 0.0 then Some(totalCost / denomKm) else None;
    r := Computation(yearly, totalFuel, totalMaint, resaleOffset, totalLoan, totalCost, costPerKm);
  }

  // ---------------------------------------------------------------------
  // What the year-by-year breakdown means
  // ---------------------------------------------------------------------

  /** The running total of year y is y equal shares plus the loan payments of years 1..y. */
  lemma {:induction false} CumulativeClosedForm(c: CostBasis, y: nat)
    requires 1 <= c.horizon && |c.loans| == c.horizon && y <= c.horizon
    ensures Cumulative(c, y)
         == y as real * (c.energy + c.maintenance + DepreciationPerYear(c)) + Sum(c.loans[..y])
  {
    if y > 0 {
      CumulativeClosedForm(c, y - 1);
      assert c.loans[..y][..y - 1] == c.loans[..y - 1];
    }
  }

  /** The running total of the last year is the whole cost over the horizon. */
  lemma FinalCumulative(c: CostBasis)
    requires 1 <= c.horizon && |c.loans| == c.horizon
    ensures Cumulative(c, c.horizon)
         == c.energy * c.horizon as real + c.maintenance * c.horizon as real + Sum(c.loans) + c.depreciationBase
  {
    CumulativeClosedForm(c, c.horizon);
    assert c.loans[..c.horizon] == c.loans;
    assert c.horizon as real * DepreciationPerYear(c) == c.depreciationBase;
  }

  /** With no negative component, the running total never decreases. */
  lemma {:induction false} CumulativeMonotone(c: CostBasis, i: nat, j: nat)
    requires c.energy >= 0.0 && c.maintenance >= 0.0 && c.depreciationBase >= 0.0
    requires forall k :: 0 <= k < |c.loans| ==> c.loans[k] >= 0.0
    requires i <= j <= c.horizon
    ensures Cumulative(c, i) <= Cumulative(c, j)
  {
    if i < j {
      CumulativeMonotone(c, i, j - 1);
      assert DepreciationPerYear(c) >= 0.0;
      assert YearCost(c, j) >= 0.0;
    }
  }

  function Depreciations(yearly: seq<YearlyBreakdownComponent>): seq<real> {
    seq(|yearly|, i requires 0 <= i < |yearly| => yearly[i].depreciation)
  }

  /** The yearly depreciation shares add up to the depreciation base. */
  lemma DepreciationAddsUp(c: CostBasis)
    requires c.horizon >= 1
    ensures Sum(Depreciations(Breakdown(c))) == c.depreciationBase
  {
    assert Depreciations(Breakdown(c)) == seq(c.horizon, i => DepreciationPerYear(c));
    SumConstant(DepreciationPerYear(c), c.horizon);
  }

  /**
   * Row j of the breakdown is year j + 1 with the year's components, and
   * its running total is j + 1 equal shares plus the loan payments so far.
   */
  lemma BreakdownRow(c: CostBasis, j: nat)
    requires 1 <= c.horizon && |c.loans| == c.horizon && j < c.horizon
    ensures |Breakdown(c)| == c.horizon
    ensures Breakdown(c)[j]
         == YearlyBreakdownComponent(j + 1, c.energy, c.maintenance, c.loans[j], DepreciationPerYear(c),
              (j + 1) as real * (c.energy + c.maintenance + DepreciationPerYear(c)) + Sum(c.loans[..j + 1]))
  {
    CumulativeClosedForm(c, j + 1);
  }

  // ---------------------------------------------------------------------
  // compare
  // ---------------------------------------------------------------------

  /** Every row unchanged except its running total, which goes through `round2`. */
  function RoundCumulative(yearly: seq<YearlyBreakdownComponent>, round2: real -> real): seq<YearlyBreakdownComponent> {
    seq(|yearly|, i requires 0 <= i < |yearly| => yearly[i].(cumulativeTotal := round2(yearly[i].cumulativeTotal)))
  }

  /** One element of the `vehicles.map(...)` in `compare`. */
  function VehicleResult(v: Vehicle, globalAnnualKm: real, horizon: nat, round2: real -> real): VehicleResultSummary {
    var effectiveAnnualKm := AnnualKmForVehicle(v, globalAnnualKm);
    var r := VehicleCosts(v, AnnualEnergyCost(v, effectiveAnnualKm), effectiveAnnualKm, horizon);
    VehicleResultSummary(v.id, v.name, v.Type(), r.totalCost, r.costPerKm, r.totalFuel, r.totalMaint,
                         r.totalLoan, r.resaleOffset, RoundCumulative(r.yearly, round2))
  }

  /**
   * `compare`: one result per vehicle, in input order, carrying the vehicle's
   * identifier, name and type. `round2` is the rounding applied to the
   * running totals; it is a parameter because the model does not interpret it.
   */
  function Compare(input: ComparisonInput, round2: real -> real): (out: ComparisonOutput)
    ensures |out.results| == |input.vehicles|
    ensures forall i :: 0 <= i < |input.vehicles| ==>
              && out.results[i].vehicleId == input.vehicles[i].id
              && out.results[i].name == input.vehicles[i].name
              && out.results[i].vehicleType == input.vehicles[i].Type()
  {
    var vehicles := input.vehicles;
    ComparisonOutput(seq(|vehicles|, i requires 0 <= i < |vehicles| =>
      VehicleResult(vehicles[i], input.annualKm, input.horizonYears, round2)))
  }

  /**
   * The totals of the shared computation: energy, maintenance and loan over
   * the horizon plus purchase price net of resale, with resale and
   * maintenance read as 0 when absent; the cost per km is absent exactly when
   * the distance over the horizon is not positive, and otherwise spreads the
   * total cost over that distance.
   */
  predicate CostsFormula(v: Vehicle, energy: real, km: real, horizon: nat,
                            totalFuel: real, totalMaint: real, resaleOffset: real, totalLoan: real,
                            totalCost: real, costPerKm: Option<real>) {
    && totalFuel == energy * horizon as real
    && totalMaint == OrZero(v.annualMaintenanceTHB) * horizon as real
    && resaleOffset == OrZero(v.resaleValue)
    && totalLoan == LoanSchedule(v, horizon).monthlyPayment * 12.0 * Min(TermYears(v), horizon) as real
    && totalCost == totalFuel + totalMaint + totalLoan + (v.purchasePrice - resaleOffset)
    && (costPerKm.None? <==> km * horizon as real <= 0.0)
    && (km * horizon as real > 0.0 ==> costPerKm == Some(totalCost / (km * horizon as real)))
  }

  lemma VehicleCostsTotals(v: Vehicle, energy: real, km: real, horizon: nat)
    ensures var r := VehicleCosts(v, energy, km, horizon);
            CostsFormula(v, energy, km, horizon, r.totalFuel, r.totalMaint, r.resaleOffset, r.totalLoan,
                            r.totalCost, r.costPerKm)
  {
    LoanTotalWithinHorizon(v, horizon);
  }

  /** The running total of the last year of the breakdown is the total cost. */
  lemma VehicleCostsFinal(v: Vehicle, energy: real, km: real, horizon: nat)
    requires horizon >= 1
    ensures Cumulative(BasisOf(v, energy, horizon), horizon) == VehicleCosts(v, energy, km, horizon).totalCost
  {
    var c := BasisOf(v, energy, horizon);
    var loan := LoanSchedule(v, horizon);
    assert c.loans == loan.yearlyPayments && |c.loans| == horizon;
    FinalCumulative(c);
    assert Sum(c.loans) == loan.totalPaidWithinHorizon;
  }

  lemma CompareAt(input: ComparisonInput, round2: real -> real, i: nat)
    requires i < |input.vehicles|
    ensures Compare(input, round2).results[i] == VehicleResult(input.vehicles[i], input.annualKm, input.horizonYears, round2)
  {
  }

  lemma VehicleResultRow(v: Vehicle, globalAnnualKm: real, horizon: nat, round2: real -> real, j: nat)
    requires j < horizon
    ensures var res := VehicleResult(v, globalAnnualKm, horizon, round2);
            var row := Breakdown(BasisOf(v, AnnualEnergyCost(v, AnnualKmForVehicle(v, globalAnnualKm)), horizon))[j];
            |res.yearly| == horizon && res.yearly[j] == row.(cumulativeTotal := round2(row.cumulativeTotal))
  {
  }

  /**
   * The totals of a vehicle's result: energy, maintenance and loan over the
   * horizon plus purchase price net of resale, with resale and maintenance
   * read as 0 when absent, loan payments counted only within the horizon;
   * the cost per km is absent exactly when the distance over the horizon is
   * not positive, and otherwise spreads the total cost over that distance.
   */
  predicate TotalsFormula(v: Vehicle, km: real, horizon: nat, res: VehicleResultSummary) {
    CostsFormula(v, AnnualEnergyCost(v, km), km, horizon, res.totalFuelOrElectricity, res.totalMaintenance,
                    res.resaleOffset, res.totalLoanPayments, res.totalCost, res.costPerKm)
  }

  lemma VehicleResultTotals(v: Vehicle, globalAnnualKm: real, horizon: nat, round2: real -> real)
    ensures TotalsFormula(v, AnnualKmForVehicle(v, globalAnnualKm), horizon,
                             VehicleResult(v, globalAnnualKm, horizon, round2))
  {
    var km := AnnualKmForVehicle(v, globalAnnualKm);
    VehicleCostsTotals(v, AnnualEnergyCost(v, km), km, horizon);
  }

  lemma CompareTotals(input: ComparisonInput, round2: real -> real, i: nat)
    requires i < |input.vehicles|
    ensures TotalsFormula(input.vehicles[i], AnnualKmForVehicle(input.vehicles[i], input.annualKm),
                             input.horizonYears, Compare(input, round2).results[i])
  {
    CompareAt(input, round2, i);
    VehicleResultTotals(input.vehicles[i], input.annualKm, input.horizonYears, round2);
  }

  /** Without a loan term nothing is paid towards a loan, in any year or in total. */
  lemma CompareWithoutLoan(input: ComparisonInput, round2: real -> real, i: nat)
    requires i < |input.vehicles| && TermYears(input.vehicles[i]) == 0
    ensures Compare(input, round2).results[i].totalLoanPayments == 0.0
    ensures forall j :: 0 <= j < |Compare(input, round2).results[i].yearly| ==>
              Compare(input, round2).results[i].yearly[j].loan == 0.0
  {
    var v := input.vehicles[i];
    var km := AnnualKmForVehicle(v, input.annualKm);
    CompareAt(input, round2, i);
    forall j | 0 <= j < |Compare(input, round2).results[i].yearly|
      ensures Compare(input, round2).results[i].yearly[j].loan == 0.0
    {
      VehicleResultRow(v, input.annualKm, input.horizonYears, round2, j);
    }
  }

  /**
   * Row j of a result is year j + 1 and carries the annual energy cost, the
   * maintenance, that year's loan payment and an equal share of the purchase
   * price net of resale; its running total is the rounded running sum of the
   * yearly costs of years 1..j + 1.
   */
  predicate RowFormula(v: Vehicle, km: real, horizon: nat, round2: real -> real,
                          res: VehicleResultSummary, j: nat)
    requires j < horizon
  {
    && |res.yearly| == horizon
    && res.yearly[j].year == j + 1
    && res.yearly[j].fuelOrElectricity == AnnualEnergyCost(v, km)
    && res.yearly[j].maintenance == OrZero(v.annualMaintenanceTHB)
    && res.yearly[j].loan == LoanSchedule(v, horizon).yearlyPayments[j]
    && res.yearly[j].depreciation == (v.purchasePrice - OrZero(v.resaleValue)) / horizon as real
    && res.yearly[j].cumulativeTotal == round2(Cumulative(BasisOf(v, AnnualEnergyCost(v, km), horizon), j + 1))
  }

  lemma CompareYearly(input: ComparisonInput, round2: real -> real, i: nat, j: nat)
    requires i < |input.vehicles| && j < input.horizonYears
    ensures RowFormula(input.vehicles[i], AnnualKmForVehicle(input.vehicles[i], input.annualKm),
                          input.horizonYears, round2, Compare(input, round2).results[i], j)
  {
    var v := input.vehicles[i];
    var km := AnnualKmForVehicle(v, input.annualKm);
    var c := BasisOf(v, AnnualEnergyCost(v, km), input.horizonYears);
    CompareAt(input, round2, i);
    VehicleResultRow(v, input.annualKm, input.horizonYears, round2, j);
    assert Breakdown(c)[j] == Row(c, j + 1);
  }

  /** The running total shown for the last year is the rounded total cost. */
  lemma CompareFinalCumulative(input: ComparisonInput, round2: real -> real, i: nat)
    requires i < |input.vehicles| && input.horizonYears >= 1
    ensures |Compare(input, round2).results[i].yearly| == input.horizonYears
    ensures Compare(input, round2).results[i].yearly[input.horizonYears - 1].cumulativeTotal
            == round2(Compare(input, round2).results[i].totalCost)
  {
    var v := input.vehicles[i];
    var km := AnnualKmForVehicle(v, input.annualKm);
    var c := BasisOf(v, AnnualEnergyCost(v, km), input.horizonYears);
    CompareAt(input, round2, i);
    VehicleResultRow(v, input.annualKm, input.horizonYears, round2, input.horizonYears - 1);
    assert Breakdown(c)[c.horizon - 1] == Row(c, c.horizon);
    VehicleCostsFinal(v, AnnualEnergyCost(v, km), km, input.horizonYears);
  }

  /** Depreciation over the whole horizon is the purchase price net of resale. */
  lemma CompareDepreciationSum(input: ComparisonInput, round2: real -> real, i: nat)
    requires i < |input.vehicles| && input.horizonYears >= 1
    ensures Sum(Depreciations(Compare(input, round2).results[i].yearly))
            == input.vehicles[i].purchasePrice - OrZero(input.vehicles[i].resaleValue)
  {
    var v := input.vehicles[i];
    var km := AnnualKmForVehicle(v, input.annualKm);
    var c := BasisOf(v, AnnualEnergyCost(v, km), input.horizonYears);
    CompareAt(input, round2, i);
    assert Depreciations(Compare(input, round2).results[i].yearly) == Depreciations(Breakdown(c));
    DepreciationAddsUp(c);
  }

  /** Loan payments are never negative. */
  lemma LoanPaymentsNonNegative(v: Vehicle, horizon: nat)
    ensures forall k :: 0 <= k < horizon ==> LoanSchedule(v, horizon).yearlyPayments[k] >= 0.0
  {
  }

  /**
   * When the annual energy cost and maintenance are not negative and the
   * resale value does not exceed the purchase price, the running totals
   * never decrease, before rounding and after any monotone rounding.
   */
  lemma CompareCumulativeMonotone(input: ComparisonInput, round2: real -> real, i: nat, j: nat, k: nat)
    requires i < |input.vehicles| && j <= k < input.horizonYears
    requires AnnualEnergyCost(input.vehicles[i], AnnualKmForVehicle(input.vehicles[i], input.annualKm)) >= 0.0
    requires OrZero(input.vehicles[i].annualMaintenanceTHB) >= 0.0
    requires OrZero(input.vehicles[i].resaleValue) <= input.vehicles[i].purchasePrice
    requires forall a: real, b: real :: a <= b ==> round2(a) <= round2(b)
    ensures |Compare(input, round2).results[i].yearly| == input.horizonYears
    ensures Compare(input, round2).results[i].yearly[j].cumulativeTotal
            <= Compare(input, round2).results[i].yearly[k].cumulativeTotal
  {
    var v := input.vehicles[i];
    var km := AnnualKmForVehicle(v, input.annualKm);
    var c := BasisOf(v, AnnualEnergyCost(v, km), input.horizonYears);
    CompareAt(input, round2, i);
    VehicleResultRow(v, input.annualKm, input.horizonYears, round2, j);
    VehicleResultRow(v, input.annualKm, input.horizonYears, round2, k);
    assert Breakdown(c)[j] == Row(c, j + 1) && Breakdown(c)[k] == Row(c, k + 1);
    LoanPaymentsNonNegative(v, input.horizonYears);
    CumulativeMonotone(c, j + 1, k + 1);
  }
}
