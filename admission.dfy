/**
 * What a request the validators accept guarantees to the comparison engine:
 * every EV has a positive consumption rate, the annual energy cost is never
 * negative, the down-payment default changes no result, an EV is costed at
 * the request's distance, and the running totals never decrease.
 */
module Admission {
  import opened Types
  import opened Calculations
  import opened Validators

  /** An EV the schema accepts always has a positive consumption rate, stated or derived. */
  lemma ValidEvHasRate(v: Vehicle)
    requires ValidEV(v)
    ensures EvConsumptionRate(v.powertrain).Some?
    ensures EvConsumptionRate(v.powertrain).value > 0.0
  {
    var p := v.powertrain;
    if !Truthy(p.energyConsumptionKwhPer100km) {
      EvEnergyRule(p, 0.0);
      assert EvConsumptionRate(p).value * p.rangeKmPerCharge.value == 100.0 * p.batteryCapacityKwh.value;
    }
  }

  /** For an accepted vehicle and a non-negative distance, the annual energy cost is not negative. */
  lemma ValidVehicleEnergyNonNegative(v: Vehicle, annualKm: real)
    requires ValidVehicle(v) && annualKm >= 0.0
    ensures AnnualEnergyCost(v, annualKm) >= 0.0
  {
    if v.powertrain.Combustion? {
      IceFuelRule(v.powertrain, annualKm);
    } else {
      ValidEvHasRate(v);
      EvEnergyRule(v.powertrain, annualKm);
    }
  }

  /** Filling in the default down payment leaves the engine's result for a vehicle unchanged. */
  lemma DownPaymentDefaultKeepsResult(v: Vehicle, globalAnnualKm: real, horizon: nat, round2: real -> real)
    ensures VehicleResult(v.(downPayment := Some(OrZero(v.downPayment))), globalAnnualKm, horizon, round2)
            == VehicleResult(v, globalAnnualKm, horizon, round2)
  {
    var w := v.(downPayment := Some(OrZero(v.downPayment)));
    assert Principal(w) == Principal(v);
    assert LoanSchedule(w, horizon) == LoanSchedule(v, horizon);
    assert AnnualKmForVehicle(w, globalAnnualKm) == AnnualKmForVehicle(v, globalAnnualKm);
    assert AnnualEnergyCost(w, AnnualKmForVehicle(v, globalAnnualKm))
        == AnnualEnergyCost(v, AnnualKmForVehicle(v, globalAnnualKm));
  }

  /**
   * Comparing a parsed request gives one result per submitted vehicle, in
   * order. An ICE vehicle's result is the one for the vehicle as submitted;
   * an EV's own distance fields were dropped by parsing, so its energy is
   * costed at the request's annual distance.
   */
  lemma CompareParsed(req: ComparisonRequest, round2: real -> real, i: nat)
    requires ParseComparisonInput(req).Some? && i < |req.vehicles|
    ensures |Compare(ParseComparisonInput(req).value, round2).results| == |req.vehicles| >= 2
    ensures req.vehicles[i].powertrain.Combustion?
            ==> Compare(ParseComparisonInput(req).value, round2).results[i]
                == VehicleResult(req.vehicles[i], req.annualKm, ParseComparisonInput(req).value.horizonYears, round2)
    ensures req.vehicles[i].powertrain.Electric?
            ==> Compare(ParseComparisonInput(req).value, round2).results[i].totalFuelOrElectricity
                == AnnualEnergyCost(req.vehicles[i], req.annualKm) * ParseComparisonInput(req).value.horizonYears as real
  {
    var input := ParseComparisonInput(req).value;
    var v := req.vehicles[i];
    CompareAt(input, round2, i);
    if v.powertrain.Combustion? {
      assert input.vehicles[i] == v.(downPayment := Some(OrZero(v.downPayment)));
      DownPaymentDefaultKeepsResult(v, req.annualKm, input.horizonYears, round2);
    } else {
      CompareTotals(input, round2, i);
      assert AnnualKmForVehicle(input.vehicles[i], req.annualKm) == req.annualKm;
      assert AnnualEnergyCost(input.vehicles[i], req.annualKm) == AnnualEnergyCost(v, req.annualKm);
    }
  }

  /**
   * In a parsed request, the running total of a vehicle never decreases from
   * one year to a later one, as long as its resale value does not exceed its
   * price and the rounding is monotone.
   */
  lemma ParsedCumulativeMonotone(req: ComparisonRequest, round2: real -> real, i: nat, j: nat, k: nat)
    requires ParseComparisonInput(req).Some? && i < |req.vehicles|
    requires j <= k < ParseComparisonInput(req).value.horizonYears
    requires OrZero(req.vehicles[i].resaleValue) <= req.vehicles[i].purchasePrice
    requires forall a: real, b: real :: a <= b ==> round2(a) <= round2(b)
    ensures Compare(ParseComparisonInput(req).value, round2).results[i].yearly[j].cumulativeTotal
            <= Compare(ParseComparisonInput(req).value, round2).results[i].yearly[k].cumulativeTotal
  {
    var input := ParseComparisonInput(req).value;
    var v := input.vehicles[i];
    assert v == ParsedVehicle(req.vehicles[i]);
    assert ValidVehicle(req.vehicles[i]);
    var km := AnnualKmForVehicle(v, input.annualKm);
    assert km >= 0.0;
    ValidVehicleEnergyNonNegative(req.vehicles[i], km);
    assert AnnualEnergyCost(v, km) == AnnualEnergyCost(req.vehicles[i], km);
    CompareCumulativeMonotone(input, round2, i, j, k);
  }
}
