/**
 * The input rules of lib/validators.ts as predicates: what the vehicle and
 * comparison-request schemas accept, and the defaults they fill in.
 */
module Validators {
  import opened Types

  predicate NonNegativeIfPresent(o: Option<real>) {
    o.Some? ==> o.value >= 0.0
  }

  predicate PositiveIfPresent(o: Option<real>) {
    o.Some? ==> o.value > 0.0
  }

  /** UTF-16 code units of one character: two for a character above U+FFFF (a surrogate pair). */
  function Utf16Units(c: char): nat {
    if c as int > 0xFFFF then 2 else 1
  }

  /** JavaScript's `length` of a string: its UTF-16 code units, which is what zod's `min`/`max` count. */
  function Utf16Length(s: string): nat {
    if |s| == 0 then 0 else Utf16Units(s[0]) + Utf16Length(s[1..])
  }

  /** A string has at least one code unit per character and at most two. */
  lemma {:induction false} Utf16LengthBounds(s: string)
    ensures |s| <= Utf16Length(s) <= 2 * |s|
  {
    if |s| > 0 {
      Utf16LengthBounds(s[1..]);
    }
  }

  /** A string made only of characters above U+FFFF has twice as many code units as characters. */
  lemma {:induction false} Utf16LengthAstral(s: string)
    requires forall i :: 0 <= i < |s| ==> s[i] as int > 0xFFFF
    ensures Utf16Length(s) == 2 * |s|
  {
    if |s| > 0 {
      Utf16LengthAstral(s[1..]);
    }
  }

  /** baseVehicleSchema: identity, price, down payment and resale value. */
  predicate ValidBase(v: Vehicle) {
    && Utf16Length(v.id) >= 1
    && 1 <= Utf16Length(v.name) <= 80
    && v.purchasePrice > 0.0
    && NonNegativeIfPresent(v.downPayment)
    && NonNegativeIfPresent(v.resaleValue)
  }

  /** The financing fields both schemas declare: a whole-year term of 1..10 and a rate of 0..30 percent. */
  predicate ValidFinancing(v: Vehicle) {
    && (v.loanTermYears.Some? ==> 1 <= v.loanTermYears.value <= 10)
    && (v.interestRateAnnualPct.Some? ==> 0.0 <= v.interestRateAnnualPct.value <= 30.0)
  }

  /** iceVehicleSchema */
  predicate ValidICE(v: Vehicle) {
    && v.powertrain.Combustion?
    && ValidBase(v)
    && v.powertrain.fuelPricePerLiter >= 0.0
    && v.powertrain.fuelEfficiencyKmPerLiter > 0.0
    && NonNegativeIfPresent(v.monthlyKm)
    && NonNegativeIfPresent(v.annualKm)
    && NonNegativeIfPresent(v.annualMaintenanceTHB)
    && ValidFinancing(v)
  }

  /** The refinement of evVehicleSchema: a consumption, or both a range and a battery capacity. */
  predicate HasConsumptionBasis(p: Powertrain)
    requires p.Electric?
  {
    || Truthy(p.energyConsumptionKwhPer100km)
    || (Truthy(p.rangeKmPerCharge) && Truthy(p.batteryCapacityKwh))
  }

  /**
   * evVehicleSchema with its refinement. The schema declares no distance
   * fields: an EV's monthly and annual distance are not checked, and parsing
   * drops them.
   */
  predicate ValidEV(v: Vehicle) {
    && v.powertrain.Electric?
    && ValidBase(v)
    && PositiveIfPresent(v.powertrain.rangeKmPerCharge)
    && PositiveIfPresent(v.powertrain.energyConsumptionKwhPer100km)
    && PositiveIfPresent(v.powertrain.batteryCapacityKwh)
    && v.powertrain.electricityPricePerKwh >= 0.0
    && NonNegativeIfPresent(v.annualMaintenanceTHB)
    && NonNegativeIfPresent(v.powertrain.batteryWarrantyYears)
    && ValidFinancing(v)
    && HasConsumptionBasis(v.powertrain)
  }

  /** The union of the two vehicle schemas. */
  predicate ValidVehicle(v: Vehicle) {
    ValidICE(v) || ValidEV(v)
  }

  /** A comparison request as submitted, before the horizon default is applied. */
  datatype ComparisonRequest = ComparisonRequest(
    vehicles: seq<Vehicle>,
    horizonYears: Option<real>,
    annualKm: real,
    discountRatePct: Option<real>)

  predicate IsInteger(x: real) {
    x == x.Floor as real
  }

  /** comparisonInputSchema */
  predicate ValidComparisonInput(req: ComparisonRequest) {
    && |req.vehicles| >= 2
    && (forall i :: 0 <= i < |req.vehicles| ==> ValidVehicle(req.vehicles[i]))
    && (req.horizonYears.Some? ==> IsInteger(req.horizonYears.value) && 1.0 <= req.horizonYears.value <= 30.0)
    && req.annualKm >= 0.0
    && (req.discountRatePct.Some? ==> 0.0 <= req.discountRatePct.value <= 100.0)
  }

  /**
   * The vehicle an accepted schema hands on: keys its schema does not declare
   * are dropped (the EV schema declares no monthly or annual distance), and
   * a missing down payment becomes 0.
   */
  function ParsedVehicle(v: Vehicle): (w: Vehicle)
    ensures w.downPayment.Some? && w.downPayment.value == OrZero(v.downPayment)
    ensures v.powertrain.Electric? ==> w.monthlyKm.None? && w.annualKm.None?
    ensures v.powertrain.Combustion? ==> w.monthlyKm == v.monthlyKm && w.annualKm == v.annualKm
    ensures w.(downPayment := v.downPayment, monthlyKm := v.monthlyKm, annualKm := v.annualKm) == v
  {
    var stripped := if v.powertrain.Electric? then v.(monthlyKm := None, annualKm := None) else v;
    stripped.(downPayment := Some(OrZero(v.downPayment)))
  }

  /**
   * Accepts exactly the valid requests, and then yields the engine's input
   * with the defaults filled in (a horizon of 5 years when none is given)
   * and every vehicle as its schema hands it on.
   */
  function ParseComparisonInput(req: ComparisonRequest): (r: Option<ComparisonInput>)
    ensures r.Some? <==> ValidComparisonInput(req)
    ensures r.Some? ==> 1 <= r.value.horizonYears <= 30
    ensures r.Some? && req.horizonYears.None? ==> r.value.horizonYears == 5
    ensures r.Some? && req.horizonYears.Some? ==> r.value.horizonYears as real == req.horizonYears.value
    ensures r.Some? ==> r.value.annualKm == req.annualKm && r.value.discountRatePct == req.discountRatePct
    ensures r.Some? ==> |r.value.vehicles| == |req.vehicles|
    ensures r.Some? ==> forall i :: 0 <= i < |req.vehicles| ==> r.value.vehicles[i] == ParsedVehicle(req.vehicles[i])
  {
    if !ValidComparisonInput(req) then None
    else
      var horizon: nat := if req.horizonYears.Some? then req.horizonYears.value.Floor else 5;
      var vehicles := seq(|req.vehicles|, i requires 0 <= i < |req.vehicles| => ParsedVehicle(req.vehicles[i]));
      Some(ComparisonInput(vehicles, horizon, req.annualKm, req.discountRatePct))
  }
}
